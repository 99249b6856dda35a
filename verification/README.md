# Parking sensor controller: a verified model

The program watches parking spots with one camera and reports arrivals, departures and overstays to
a server. This project models the parts of it that carry state, concurrency or arithmetic, and proves
what those parts promise over every input, run or interleaving.

| files | what they model |
|---|---|
| `Handshake.dfy` | how the manager's thread stops the main loop while it edits the spot table |
| `Geometry.dfy`, `BoxFilter.dfy`, `BoxFilterProofs.dfy`, `FilterGuarantees.dfy` | pixel rectangles, and the greedy suppression of overlapping boxes |
| `FrameStore.dfy` | the frame queue, the per-second index and its eviction loop |
| `Base64.dfy`, `Base64Proofs.dfy` | the codec of section 4 of RFC 4648 |
| `UpdateMessage.dfy` | messages, and the file names under which they are spilled to disk |
| `MessageQueue.dfy`, `MessageQueueProofs.dfy`, `MessageOrder.dfy`, `QueueMonitor.dfy` | the bounded queue with disk spill, what it keeps and in which order, and its condition variable |
| `Debounce.dfy`, `ParkingSpots.dfy`, `ParkingSpotProofs.dfy`, `SpotReports.dfy` | the debounce counter, the spot with its timer, and the order and content of its messages |
| `SpotManager.dfy` | the spot table and its reconciliation with a list from the manager |

Objects that the program updates in place are classes; their methods follow its branches and are
proved against functions on values, and what the program promises is proved about those functions.

Where a promise one would expect is false of the code, the exact condition is proved instead, with a
run that breaks the promise where that is not plain from the condition:

* The handshake deadlocks exactly after a resume notification sent before the main loop has fallen
  asleep, or an exception between suspend and resume (`Handshake.DeadlockExactlyAfterHazard`). Both
  occur, and each is followed by a deadlock (`Handshake.DeadlockHappens`). The table is never shared
  even then.
* The survivors of the box filter may still overlap (`BoxFilterProofs.SeparationFails`), because the box
  that slides into the slot of a popped pivot is stepped over. They are separated exactly when no
  skipped box overlaps a later survivor, and a caller can tell by filtering once more. Before the call,
  a caller can rule the failure out whenever no box that overlaps a later one outranking or tying it
  lies left of two boxes that overlap (`BoxFilterProofs.SeparatedUnlessRisky`). On boxes that all
  overlap, as several detections of one car do, the failure is known exactly
  (`BoxFilterProofs.CrowdSeparatesExactly`).
* A spot's log is a prefix of (ENTER OVER? EXIT)* exactly when no timer handler runs while the spot is
  already reported as overstayed. Cancelled handlers still run, so this can fail
  (`ParkingSpotProofs.LogCanBreak`).
* Lowering the thresholds in mid-run can leave a spot that never reports a car again
  (`Debounce.StuckExactlyOutsideBand`).
* A spilled message is read back exactly when its plate contains neither `_` nor `/`
  (`UpdateMessage.FileRoundTrip`).
* Messages can be lost (`MessageQueueProofs.MessagesCanBeLost`). None is, exactly when every push that
  finds the memory full saves an update under a new name (`MessageQueueProofs.NothingLostExactly`). The
  counter of stored messages exceeds the number of files by exactly the overwritten ones and the sync
  messages that were "saved" (`MessageQueueProofs.EveryRunIsSound`).
* Delivery is not first in, first out (`MessageOrder.OrderCanBreak`). It is, exactly when nothing
  is pushed straight into memory while a file lies on disk and every load takes the oldest file
  (`MessageOrder.InOrderExactly`).
* Base64 text is reproduced by decoding and encoding exactly when it is canonical
  (`Base64Proofs.SurvivesExactlyWhenCanonical`).

## Model

| member | source | states |
|---|---|---|
| Handshake.TableIsNeverShared | MainInterface.cpp:226-240 | In every interleaving, from its wakeup to its resume notification the listener finds the main loop inside the management branch, past its own notification; the two never walk and edit the table at once. |
| Handshake.SenderNotifyIsNeverLost | MainInterface.cpp:232-238 | Every notification of the main loop finds the listener asleep in the current round, and every suspend is answered by at most one pass before the next suspend. |
| Handshake.NoDeadlockWithoutHazard | TCPSocketListener.cpp:329-340 | Both threads are never asleep together in a run in which no resume came early and no update threw. |
| Handshake.DeadlockExactlyAfterHazard | TCPSocketListener.cpp:292-340 | The main loop can never leave its wait again if and only if such a hazard has occurred, and then a run to a full deadlock exists. |
| Handshake.EarlyResumeHappens | TCPSocketListener.cpp:336-340 | A run without any earlier hazard sends the resume notification while the main loop holds MutexExit and is not asleep yet. |
| Handshake.ThrowHappens | TCPSocketListener.cpp:302-326 | A run without any earlier hazard has an exception leave the update between suspend and resume. |
| Handshake.DeadlockHappens | MainInterface.cpp:228-240 | From the initial state, each of these two runs continues to both threads being asleep. |
| Handshake.HazardIsForever | TCPSocketListener.cpp:336-340 | After a hazard no continuation wakes the main loop, whatever later rounds do. |
| Handshake.LostReachesDeadlock | TCPSocketListener.cpp:329-340 | From every such state a concrete schedule puts both threads to sleep. |
| Handshake.ReturnToLoopTop | MainInterface.cpp:228-240 | From every hazard-free state a hazard-free schedule brings the main loop back to its top, or finds it returned. |
| Handshake.MainReturnsExactly | MainInterface.cpp:226-253 | In every run the main loop has returned if and only if, at its top, its condition failed or it met an empty frame with the flag down. |
| Handshake.KeepsRunning | MainInterface.cpp:226-240 | While it is asked to go on and frames arrive, it never returns, however often it is suspended. |
| Handshake.UpdatesAgain | MainInterface.cpp:226-295 | From every hazard-free state in which it has not returned, some hazard-free continuation updates the spots. |
| Handshake.RequestIsServed | TCPSocketListener.cpp:292-340 | From every such state some hazard-free continuation carries the pending request through, with one resume and no further suspend, and leaves the listener idle. |
| Handshake.Reachable | types.h:104-131 | Mutex ownership, flag, program counters and round counters satisfy one inductive invariant until the first hazard and another one after it. |
| Handshake.MutualConditionVariable.MainStep | MainInterface.cpp:226-253 | One atomic step of the main loop in place is the specified step, and reports being blocked exactly when there is none. |
| Handshake.MutualConditionVariable.ListenerStep | TCPSocketListener.cpp:292-340 | The same for the listener thread. |
| Geometry.AreaCountsPixels | geo.py:30-32 | The area property is the number of pixels the rectangle covers, and positive. |
| Geometry.IntersectionPixels | geo.py:38-57 | The computed intersection covers exactly the common pixels, and is None exactly for disjoint rectangles. |
| Geometry.IouIsPixelRatio | geo.py:74-80 | IoU is the number of common pixels over the number of covered ones. |
| Geometry.IouLaws | geo.py:74-80 | IoU is symmetric, in [0, 1], 0 exactly for disjoint and 1 exactly for equal rectangles. |
| Geometry.IosIsPixelRatio | geo.py:82-88 | IoS is the number of common pixels over the pixels of the smaller rectangle. |
| Geometry.IosLaws | geo.py:82-88 | IoS is symmetric, at least IoU, at most 1, and 1 exactly when one rectangle contains the other. |
| Geometry.PixelsDetermineRect | geo.py:21-32 | Different rectangles cover different pixels. |
| BoxFilter.SortSpec | boundbox.py:16-18 | The sort is the stable one: sorted by left edge, a permutation, and equal edges in their original order. |
| BoxFilter.StableSortIsUnique | boundbox.py:16-18 | Two sorted lists with the same boxes at every left edge, in the same order, are equal: every stable sort gives the same. |
| BoxFilter.FilterBboxIos | tfutils.py:68-96 | The loops that pop from the list they walk end, and return the survivors of the specified walk under IoS. |
| BoxFilter.FilterBboxIou | tfutils.py:98-126 | The same under IoU. |
| BoxFilter.ScanPivot | tfutils.py:104-123 | The inner loop on boxes does what the scan does on positions of the sorted input. |
| BoxFilter.WalkPositions | tfutils.py:98-126 | The survivors are distinct positions of the sorted input in ascending order: a subsequence. |
| BoxFilterProofs.SurvivorsDominate | tfutils.py:68-126 | From every input box a chain of boxes, each overlapping the next at or above the threshold with non-decreasing (conf, area), ends in a survivor. |
| BoxFilterProofs.BestBoxSurvives | tfutils.py:113-119 | No input box outranks every survivor, and a box that outranks all others survives itself. |
| BoxFilterProofs.FilterDominates | tfutils.py:68-126 | From every given box such a chain of given boxes ends in a returned box. |
| BoxFilterProofs.FilterKeepsBest | tfutils.py:113-126 | No given box outranks every returned one, and a box that outranks all other given boxes is returned. |
| FilterGuarantees.TwoBoxesIou | tfutils.py:98-126 | Of two boxes the IoU filter returns both, in x order, exactly when common over covered pixels are below the threshold; otherwise the one of higher confidence, then more pixels, and on a tie the right one. |
| FilterGuarantees.TwoBoxesIos | tfutils.py:68-96 | The same for the IoS filter, with common pixels over those of the smaller box. |
| FilterGuarantees.FiltersDiffer | tfutils.py:68-126 | A pixel in a row of ten is kept beside it by the IoU filter at one half, and swallows it under IoS. |
| FilterGuarantees.IouDominates | tfutils.py:98-126 | From every given box a chain of given boxes, consecutive ones at or above the threshold in the pixel ratio of IoU and rising in confidence and pixels, ends in a returned box. |
| FilterGuarantees.IosDominates | tfutils.py:68-96 | The same for the IoS filter and its pixel ratio. |
| FilterGuarantees.IouSeparatedUnlessRisky | tfutils.py:98-126 | The boxes the IoU filter returns are pairwise below the threshold in its pixel ratio, unless the sorted input is at risk in that ratio. |
| FilterGuarantees.IosSeparatedUnlessRisky | tfutils.py:68-96 | The same for the IoS filter and its pixel ratio. |
| BoxFilterProofs.ScanClears | tfutils.py:104-122 | A pivot that finishes its scan is below the threshold with every box left to its right. |
| BoxFilterProofs.OverlapOnlyThroughSkips | tfutils.py:119-125 | If two survivors overlap at or above the threshold, the left one never finished a scan and slid into the slot of a popped pivot. |
| BoxFilterProofs.SeparatedExactlyWithoutBadSkips | tfutils.py:98-126 | The survivors are pairwise below the threshold if and only if every skipped box is clear of the later survivors; in particular when none was skipped. |
| BoxFilterProofs.SeparatedUnlessRisky | tfutils.py:113-121 | The survivors are pairwise below the threshold for every input in which no box that overlaps a later one outranking or tying it lies left of two boxes that overlap. |
| BoxFilterProofs.FilterSeparatedUnlessRisky | tfutils.py:98-126 | The same condition on the sorted input makes the returned boxes pairwise below the threshold. |
| BoxFilterProofs.CrowdSeparatesExactly | tfutils.py:98-126 | When all boxes overlap each other, the survivors are pairwise below the threshold, which means that at most one is left, if and only if no box between the first and the last outranks or ties the first. |
| BoxFilterProofs.RiskyIsNecessaryOnCrowds | tfutils.py:98-126 | When moreover the second box outranks or ties the first, the condition of SeparatedUnlessRisky is necessary as well. |
| BoxFilterProofs.SeparationFails | tfutils.py:98-126 | For every rectangle and threshold up to 1, three equal rectangles leave two overlapping survivors. |
| BoxFilterProofs.FixedPointsAreSeparated | tfutils.py:98-126 | A list in x order passes the filter unchanged if and only if its boxes are pairwise below the threshold. |
| BoxFilterProofs.SecondPassDetectsOverlap | tfutils.py:98-126 | Filtering a result again changes nothing if and only if that result is separated. |
| FrameStore.SerialVideoReader.Receive | SerialVideoReader.cpp:242-287 | After every frame the queue is the last min(n, 100) frames of the history, and the index maps each held second to the first frame stamped with it. |
| FrameStore.SerialVideoReader.Enqueue | SerialVideoReader.cpp:249-260 | The bounded queue follows the history by one frame. |
| FrameStore.SerialVideoReader.IndexFrame | SerialVideoReader.cpp:264-284 | The index follows the history by one frame, and the search front stays at or before the oldest second. |
| FrameStore.SerialVideoReader.EvictOldest | SerialVideoReader.cpp:273-278 | The inner search ends and removes exactly the oldest second. |
| FrameStore.SerialVideoReader.Read | SerialVideoReader.cpp:156-174 | Returns the last received frame, and fails exactly before the first one. |
| FrameStore.SerialVideoReader.ReadAt | SerialVideoReader.cpp:176-198 | Returns the frame of the least indexed second in [t, t+10], and fails exactly when there is none. |
| FrameStore.LatestSpec | SerialVideoReader.cpp:249-260 | The queue of latest frames is the end of the history, a hundred frames long or all of it. |
| FrameStore.TicksExactly | SerialVideoReader.cpp:264-284 | A second is ever indexed if and only if it is the first one or its frame followed a frame exactly one second older. |
| FrameStore.FirstAtSpec | SerialVideoReader.cpp:281-284 | The frame of a second is the first of the history with that stamp. |
| FrameStore.EvictedBounds | SerialVideoReader.cpp:273-278 | Between 1 and 100 seconds are held, and at least 99 once any has been evicted. |
| FrameStore.IndexSize | SerialVideoReader.cpp:273-284 | The index holds exactly as many entries as held seconds. |
| FrameStore.HeldAfter | SerialVideoReader.cpp:264-284 | One more frame removes at most the oldest second, and exactly when 100 are held, and adds at most its own. |
| FrameStore.NextIndexSound | SerialVideoReader.cpp:264-284 | Evicting and inserting keeps the index in agreement with the history. |
| FrameStore.GentleIndex | SerialVideoReader.cpp:264-287 | With a clock that never jumps by more than a second, the held seconds are a gapless interval up to now that contains every second from max(first, now - 98), each with its own first frame. |
| Base64.EncoderMasks | IOUtils.cpp:140-144 | The masks and shifts of the encoder are the divisions and remainders of the model, on all bytes. |
| Base64.DecoderMasks | IOUtils.cpp:188-190 | The same for the decoder, with its truncating first shift. |
| Base64.AlphabetText | IOUtils.cpp:29-32 | The closed form of the alphabet is the program's string. |
| Base64.ValueSpec | IOUtils.cpp:186 | Searching the alphabet inverts subscripting it, and a failed search truncates to 255. |
| Base64.Base64Encode | IOUtils.cpp:130-172 | The streaming loop with its group buffer computes the group-wise encoding. |
| Base64.AppendTail | IOUtils.cpp:151-168 | The code after the loop encodes the last one or two bytes, with their padding. |
| Base64.Base64Decode | IOUtils.cpp:174-213 | The streaming loop computes the group-wise decoding of the longest alphabet prefix. |
| Base64.AppendLastBytes | IOUtils.cpp:198-210 | The code after the loop decodes the last one to three characters. |
| Base64Proofs.EncodeShape | IOUtils.cpp:130-172 | Four characters for every three bytes begun; `=` only as final padding, of the right length. |
| Base64Proofs.EncodeKeepsBits | IOUtils.cpp:137-168 | The characters carry the bits of the bytes in order, six each, filled up with zeros, as section 4 of RFC 4648 prescribes. |
| Base64Proofs.DecodeKeepsBits | IOUtils.cpp:182-210 | The bytes carry the bits of the characters in order, eight each, and an incomplete last byte is dropped. |
| Base64Proofs.SplitBits | IOUtils.cpp:140-144 | The four sextets of a group carry the bits of its three bytes. |
| Base64Proofs.RoundTrip | IOUtils.cpp:130-213 | Decoding undoes encoding, on every byte sequence. |
| Base64Proofs.DecodeReadsPrefix | IOUtils.cpp:182 | The decoder depends only on the longest alphabet prefix, and yields three bytes for every four of its characters, rounded down. |
| Base64Proofs.EncodeIsCanonical | IOUtils.cpp:151-168 | Every encoding is canonical: whole groups, correct padding, zero pad bits (section 3.5 of RFC 4648). |
| Base64Proofs.CanonicalMeans | IOUtils.cpp:151-168 | Canonical means: a multiple of four characters, at most two of them behind the alphabet prefix and all of these equals signs, and no stray bits. |
| Base64Proofs.TestVectors | IOUtils.cpp:130-172 | Two vectors of section 10 of RFC 4648. |
| Base64Proofs.SurvivesExactlyWhenCanonical | IOUtils.cpp:130-213 | Encoding undoes decoding on exactly the canonical texts. |
| UpdateMessage.NumberRoundTrip | ParkingUpdateMessage.cpp:128-130 | Every 32-bit number that is printed is read back. |
| UpdateMessage.FileRoundTrip | ParkingUpdateMessage.cpp:107-145 | Parsing the name of a saved message restores time, request code, plate and spot if and only if the plate contains neither separator. |
| UpdateMessage.FilenameParts | ParkingUpdateMessage.cpp:107-145 | The name of a clean message splits into time, request code, plate and spot, in this order. |
| UpdateMessage.UnderscorePlate | ParkingUpdateMessage.cpp:107-133 | A plate with one `_` reads back as its first half, with the number in its second half as the spot; when that half is no number, load throws. |
| UpdateMessage.StoiSpec | ParkingUpdateMessage.cpp:128-130 | Numbers are read after blanks, with one sign, up to the first other character, and only when they fit 32 bits. |
| UpdateMessage.FilenameInjective | ParkingUpdateMessage.cpp:135-145 | Two such messages share a name only when they agree in all but their images. |
| MessageQueue.MessageQueue.Push | MessageQueue.cpp:32-46 | Spills when ten messages are in memory and counts what was saved; otherwise appends. |
| MessageQueue.SaveSpec | ParkingUpdateMessage.cpp:89-105 | A failed folder check or image write changes nothing and is reported; a successful one writes the image under the name of the message; a sync message is reported as saved and stores nothing. |
| MessageQueue.MessageQueue.LoadStoredData | MessageQueue.cpp:96-105 | Moves one file into memory when there is room and the counter is positive; otherwise changes nothing, and throws exactly when the scan ends on a name that does not parse. |
| MessageQueue.MessageQueue.TryPop | MessageQueue.cpp:48-61 | Loads, then takes the front; fails exactly on an empty queue, and leaves everything as it was when the load throws. |
| MessageQueueProofs.EveryRunIsSound | MessageQueue.cpp:32-105 | The books of every run, for all plates and every behaviour of the disk. Each pushed message has one fate: the entered ones are, once each, those delivered followed by those in memory; those on disk have one file each, and nothing else has one; the rest are overwritten, counted without being stored, or refused. Memory is bounded, and the counter is the number of files plus the overwritten and the unstored ones. |
| MessageQueueProofs.NumbersAddUp | MessageQueue.cpp:32-105 | The number of pushed messages is the sum of those delivered, in memory, on disk, and lost in the three ways. |
| MessageQueueProofs.MessagesConserved | MessageQueue.cpp:32-105 | The multiset of pushed messages, but for the crops, is those behind the entries, those on disk and the lost ones; when the loaded plates are clean, those behind the entries are exactly the messages delivered and in memory. |
| MessageQueueProofs.ReloadedIntactExactly | ParkingUpdateMessage.cpp:107-145 | In every run, a message that came back from disk is the pushed one without its crop if and only if its plate is clean. |
| MessageQueueProofs.NothingLostExactly | MessageQueue.cpp:35-39 | A run loses no message if and only if every push that found the memory full saved an update whose file did not exist yet; the counter is then the number of files. |
| MessageQueueProofs.LosslessRun | MessageQueue.cpp:32-105 | After such a run with clean loaded plates, the multiset of pushed messages equals delivered plus in memory plus on disk, up to the crops. |
| MessageQueueProofs.MessagesCanBeLost | ServerSyncMessage.cpp:54-57 | Without a pop, the eleventh sync message is lost, and so is the eleventh of twelve equal updates. |
| MessageOrder.DirectMessagesStayInOrder | MessageQueue.cpp:32-61 | In every run, messages that never touched the disk are delivered in push order. |
| MessageOrder.RunFollows | MessageQueue.cpp:32-74 | In every run of push, try_pop and wait_and_pop, the queue is the one the ledger describes, and what the ledger delivers is what those calls hand over. |
| MessageOrder.ReceivedInOrder | MessageQueue.cpp:48-74 | What the callers get is, in order, the beginning of what entered memory, where direct messages keep their push order. |
| MessageOrder.ReceivedConserved | MessageQueue.cpp:32-105 | What the callers get, what is in memory and on disk, and what was lost is, but for the crops, what was pushed. |
| MessageOrder.FirstInFirstOut | MessageQueue.cpp:32-61 | Up to ten messages pushed into an empty queue stand there in push order, and try_pop hands over the first. |
| MessageOrder.UnparsableFileThrows | ParkingUpdateMessage.cpp:128-130 | A scan that ends on a file whose plate hides a false spot makes try_pop throw and leaves everything as it was. |
| MessageOrder.InOrderExactly | MessageQueue.cpp:32-105 | At every moment of a run the messages have entered memory in push order and ahead of everything on disk, if and only if nothing was ever pushed straight into memory while a file lay on disk and every load took the oldest file. |
| MessageOrder.DeliveredInPushOrder | MessageQueue.cpp:48-61 | In such a run what is delivered earlier was pushed earlier, and is the pushed message or what its file reads as. |
| MessageOrder.OvertakenCanEnter | MessageQueue.cpp:96-105 | Once a message has passed a file with a clean plate, two pops bring that file in behind it. |
| MessageOrder.EnterOutOfOrder | MessageQueue.cpp:32-105 | A run of ten pushes, a spill, a pop, a push and two pops brings a message into memory before one that was pushed earlier. |
| MessageOrder.OrderCanBreak | MessageQueue.cpp:32-105 | A run delivers twelve messages, the last one after a message that was pushed later. |
| MessageOrder.SpilledIsOvertaken | MessageQueue.cpp:35-42 | From every full queue, a spilled message is overtaken by one pushed after the next pop. |
| MessageQueueProofs.TryPopDrains | MessageQueue.cpp:48-61 | When loads succeed, a try_pop succeeds if and only if a message is in memory or on disk, and removes exactly one. |
| MessageQueueProofs.DrainsExactly | MessageQueue.cpp:48-105 | Once pushes stop, exactly as many try_pop calls succeed as messages are in memory and on disk. |
| QueueMonitor.AlwaysWatched | MessageQueue.cpp:32-74 | In every interleaving, each message that waits for a sleeping consumer has its notification still to come. |
| QueueMonitor.NoLostWakeup | MessageQueue.cpp:44-74 | When all notifications are out, a sleeping consumer leaves nothing in memory, nor on disk if loads succeed. |
| QueueMonitor.SleepsOnlyOnEmpty | MessageQueue.cpp:63-74 | If loads succeed, wait_and_pop falls asleep only when queue and disk are both empty. |
| QueueMonitor.EnterReturnsExactly | MessageQueue.cpp:63-74 | wait_and_pop returns at once if and only if the queue is not empty after its load, with the front message; otherwise it falls asleep; an exception of the load changes nothing. |
| QueueMonitor.WakeReturnsExactly | MessageQueue.cpp:68-73 | A woken caller takes the front message, or falls asleep again on an empty queue. |
| QueueMonitor.MonitorFollowsQueue | MessageQueue.cpp:32-74 | Every interleaving of producers and consumer is a run of the queue, and the consumer receives what that run hands over. |
| QueueMonitor.NotificationDelivers | MessageQueue.cpp:44-74 | The next notification and wakeup hand over the front message. |
| Debounce.TickIsTrigger | ParkingSpot.cpp:361-391 | With sane thresholds the nested branches are a Schmitt trigger on a saturating walk in [2N, 2P], and keep its band: above P occupied, below N vacant. |
| Debounce.BandIsKept | ParkingSpot.cpp:361-391 | The band holds over every sequence of frames. |
| Debounce.ChangesAreFarApart | ParkingSpot.cpp:361-391 | Two consecutive changes are separated by at least enterCount + exitCount + 2 frames of the new kind, whatever noise is mixed in. |
| Debounce.ResponseTime | ParkingSpot.cpp:361-391 | A steady signal shows after exactly P - count + 1 or count - N + 1 frames, so after at most P - 2N + 1 or 2P - N + 1. |
| Debounce.StuckExactlyOutsideBand | ParkingSpot.cpp:361-391 | After a change of thresholds a vacant spot ignores every car if and only if its counter is at or above 2P, and an occupied one never empties if and only if it is at or below 2N. |
| Debounce.LoweringThresholdsCanStick | TCPSocketListener.cpp:309-315 | Lowering enterCount from 3 to 1 after three frames of a car causes that. |
| ParkingSpots.ParkingSpot.UpdateStatus | ParkingSpot.cpp:361-391 | Moves the counter and the status as specified, and returns whether the status changed. |
| ParkingSpots.ParkingSpot.ProcessFrame | MainInterface.cpp:511-526 | One frame debounces the detection, and enters or leaves exactly when the status changes. |
| ParkingSpots.ParkingSpot.Enter | ParkingSpot.cpp:269-325 | Occupies the spot, sends ENTER, restarts the timer and takes over a reserved time limit. |
| ParkingSpots.ParkingSpot.Overstayed | ParkingSpot.cpp:327-332 | Marks the spot and sends OVER. |
| ParkingSpots.ParkingSpot.Exit | ParkingSpot.cpp:334-345 | Clears the status and the plate, sends EXIT and cancels the timer, whose handler stays ready to run. |
| ParkingSpots.ParkingSpot.Update | ParkingSpot.cpp:347-359 | Takes new attributes, and refuses exactly while the spot is occupied and not overstayed. |
| ParkingSpots.ParkingSpot.Reset | ParkingSpot.cpp:393-399 | Cancels the timer and clears status and counter, but neither the plate nor the attributes. |
| ParkingSpots.ParkingSpot.Expired | ParkingSpot.cpp:452-487 | The handler reports an overstay exactly when the spot is occupied, whichever stay the wait was started for. |
| ParkingSpotProofs.EntersBalanceExits | ParkingSpot.cpp:269-345 | Over every run, resets included: ENTERs equal EXITs plus the car parked now plus those forgotten by resets; OVERs and handlers still due never exceed ENTERs. |
| ParkingSpotProofs.ReportsAlternate | MainInterface.cpp:511-526 | Without resets ENTER and EXIT alternate strictly, starting with ENTER, and every OVER falls inside a stay. |
| ParkingSpotProofs.GrammarExactly | ParkingSpot.cpp:452-487 | Without resets the log is a prefix of (ENTER OVER? EXIT)* if and only if no handler ran while the spot was already reported as overstayed. |
| ParkingSpotProofs.OneHandlerPerStay | ParkingSpot.cpp:432-450 | If cancelled handlers run before the next ENTER, each stay has at most one handler pending, ready or done. |
| ParkingSpotProofs.DrainedLogIsOrderly | ParkingSpot.cpp:432-487 | Under that condition the log is always such a prefix. |
| ParkingSpotProofs.StaleHandlerIsReachable | ParkingSpot.cpp:448-450 | A second stay with the handler of the first one still due is reached. |
| ParkingSpotProofs.LogCanBreak | ParkingSpot.cpp:448-487 | A concrete run without resets reports the second stay as overstayed twice. |
| ParkingSpotProofs.SpotFollowsDebounce | ParkingSpot.cpp:361-399 | Messages, timers, handlers and new attributes never disturb the debouncing, and a reset starts it afresh: counter and status are those of the bare counter on the frames since the last reset. |
| ParkingSpotProofs.ReportsAreFarApart | MainInterface.cpp:511-526 | Between an ENTER and a later EXIT, or an EXIT and a later ENTER, lie at least enterCount + exitCount + 2 frames that show the new status, in every run with fixed thresholds and no reset. |
| SpotReports.LogTold | ParkingSpot.cpp:269-345 | The whole log of every run, told from the events: every report names this spot; ENTER and EXIT carry the frame and the time of the frame that caused them; OVER carries the handler's image and the last ENTER's time plus the time limit in force, which is the reservation's where there is one. |
| SpotReports.FieldsOfRun | ParkingSpot.cpp:269-399 | Over every run the spot keeps its id, the time of its last ENTER, and the last accepted attributes with the limit of the last reservation since. |
| SpotReports.EveryWaitIsServedOnce | ParkingSpot.cpp:432-450 | Every ENTER starts one wait, which has been served by one handler, is due, or is pending; it is pending only while the spot is occupied. |
| SpotReports.ReservedStay | ParkingSpot.cpp:432-487 | A reserved stay is reported as over when the reserved time has passed since its ENTER. |
| SpotManager.ParkingSpotManager.Add | ParkingSpotManager.cpp:61-69 | Adds a vacant spot under an unknown id; refuses a known one and changes nothing. |
| SpotManager.ParkingSpotManager.Update | ParkingSpotManager.cpp:71-78 | Changes one known spot, unless its timer runs, and no other. |
| SpotManager.ParkingSpotManager.Erase | ParkingSpotManager.cpp:80-90 | Resets and removes the spot, and no other. |
| SpotManager.ParkingSpotManager.Reset | ParkingSpotManager.cpp:228-232 | Resets every spot, in whatever order the table is walked. |
| SpotManager.ParkingSpotManager.Clear | ParkingSpotManager.cpp:223-226 | Resets every spot and leaves an empty table. |
| SpotManager.ParkingSpotManager.UpdateParkingSpots | ParkingSpotManager.cpp:294-344 | The upsert loop and the erasing loop together compute the reconciliation; retained spots stay the same objects, and erased ones are not reset. |
| SpotManager.ParkingSpotManager.EraseOthers | ParkingSpotManager.cpp:330-338 | Erasing while iterating removes exactly the spots that were not listed, in whatever order. |
| SpotManager.ParkingSpotManager.ToPTree | ParkingSpotManager.cpp:346-366 | Lists every spot exactly once, with its id, name and region. |
| SpotManager.ParkingSpotManager.ServeUpdate | TCPSocketListener.cpp:309-323 | An update request sets the thresholds, the exit count negated, and reconciles the table, also with an empty list, which clears it. |
| SpotManager.LastSpec | ParkingSpotManager.cpp:297-328 | The entry that counts for an id is the last one that names it. |
| SpotManager.UpsertAllSpec | ParkingSpotManager.cpp:297-328 | After the upsert loop every id has the outcome of its last entry; ids without one are as before. |
| SpotManager.ReconcileSpec | ParkingSpotManager.cpp:294-344 | Exactly the listed ids remain. A spot whose timer runs keeps everything; every other takes its last entry, with policy and limit from the tables, and keeps status, counter, timer and log; unknown ids start vacant. |
| SpotManager.ReconciledFields | ParkingSpotManager.cpp:304-328 | Field by field, for the last entry that names an id: time limit and policy are those of the tables for that id, name and region those of the entry, unless the timer runs; id, status, counter, timer, entry time, plate and log are as before; an unknown id starts vacant. |
| SpotManager.ReconcileIdempotent | ParkingSpotManager.cpp:294-344 | Applying the same list twice is applying it once. |
| SpotManager.OwnListIsHarmless | ParkingSpotManager.cpp:294-366 | Applying the table's own list keeps all ids, names and regions, and everything but policy and limit. |

## Left out

- Camera, video and image coding, windows, mouse handling, drawing and motion detection: frames are opaque values.
- `localizer_detect`: its result is an arbitrary boolean for each frame; the crop that `enter` cuts from the image and the regions that `exit` clears are dropped.
- MySQL: the policy and limit tables are parameters, and so is the reserved time that `check_res` and `entVehicle` find for a plate.
- HTTP, TLS, sockets, JSON, XML and INI files: only what they carry is modelled. An update message without the key it needs is the exception in `Handshake`.
- Plate reading, `Light` and `BoardController`: not part of this model.
- Main loop: drawing, waiting for a key and detecting are not split into steps; `Updating` stands for them. The debug key that ends the loop is left out.
- Handshake: no spurious wakeups, and reads and writes of `ManagementMode` are sequentially consistent. When the main loop has returned, a later suspend is never answered; this is modelled, and not called a deadlock.
- Listener body: the step `Editing` stands for all of thresholds and table. `SpotManager` says what it does to the table.
- Clock: whole seconds that never run backwards; `SerialVideoReader.Receive` takes this as its precondition.
- Frame store: the two critical sections of one loop round are separate methods, but a reader that runs between them is not modelled.
- Frames and handlers: a frame of the main loop and a run of a timer handler are atomic with respect to one spot. Deadlines are events that may come at any time, so the length of a wait is not modelled; the time that an OVER message carries takes the limit in seconds, as the code does, although the timer of a reservation is started in minutes.
- The loop of `updateSpots` over all spots: each spot is driven on its own, and the shared thresholds are a parameter of each frame.
- Server queue of a spot: `sent` is what one spot has pushed; how the shared queue treats it is the subject of `MessageQueue`.
- `wait_and_pop`: modelled as the atomic steps of `QueueMonitor` rather than as a method, since it blocks inside a loop. `pop`, `empty` and `toString` of the queue are left out.
- Spill folder: empty at the start, and written by this program only; it has no sub-directories, so an image whose plate contains `/` cannot be written. Directory order is an arbitrary choice. A file whose plate contains `_` may read back as another message, or make `stoi` throw out of the pop; both are modelled.
- ISO time text is taken as the time itself.
- Integer width: counters of frames, messages and spots are unbounded; the numbers in file names are 32 bits wide. The length of a text is not truncated to `int`.
- `isalnum` is that of the C locale.
- Overlap ratios and confidences are real numbers; the rounding of Python floats is not modelled.
- SeparatedUnlessRisky: only one direction on arbitrary input, and so for FilterSeparatedUnlessRisky; both directions hold on boxes that all overlap, and the general if-and-only-if, `SeparatedExactlyWithoutBadSkips`, speaks of the boxes that the walk skips, which a caller does not see beforehand.
- The sort is written as an insertion sort; by `SortSpec` and `StableSortIsUnique` any stable sort gives the same.
- Spot table: entries that lack a field leave C++ variables uninitialised, and ids outside 0..999 index the tables out of bounds; both are excluded. The JSON file written at the end of `updateParkingSpots` is left out.
