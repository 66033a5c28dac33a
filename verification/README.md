# Verified model of the detection-sensor firmware

This project models the parts of the firmware that must not lose, forge or garble data, and proves what they keep.
It covers six areas, in the order data flows through them.

* **Framing and CRCs** (`Bytes`, `Words`, `Crc16`, `Crc16Burst`, `Crc16Parity`, `Crc16Order`, `Crc16Flips`,
  `Crc16Answers`, `Crc32`, `Crc32Burst`, `Crc32Answers`, `Frame`): the frame codec over CRC-16/CCITT-FALSE and the
  reflected CRC-32 of section 8 of RFC 1952. Registers are bit-vectors, bytes are integers.
* **Event history** (`Events`, `History`, `HistoryService`, `HistoryRuns`, `EventFates`, `TimeSync`, `PowerCycles`): the
  ring in RTC memory as a class over a fixed buffer, refined to "the stored events, oldest first"; timestamps; flash
  backup.
* **Delivery** (`Pending`, `ProtocolHandler`, `SyncPaging`, `Governor`, `DeliveryPump`, `Delivery`, `DeliveryTable`,
  `DeliveryRetries`, `DeliveryTimes`, `DeliverySafety`, `DeliveryCycles`, `DeliveryPumping`, `DeliveryProgress`): the
  pending table, acknowledgements, retries, sync. The class `ProtocolHandler` runs each critical section; the state
  machine `Delivery` interleaves the same sections of all tasks in any order, with the unlocked gap of `handleAck`
  between separate steps, so that any other step can slip in. `DeliveryTimes` adds the real times behind the clock
  readings, `DeliveryCycles` flushes, reboots and power losses, `DeliveryPumping` the pump with its clock and the
  governor.
* **Firmware images** (`FlashDevice`, `Ota`, `OtaManager`, `Flasher`, `FlasherService`, `FlasherRuns`): the BLE receiver,
  the Wi-Fi receiver, and the flash device both write to, which may take less than it is given at any call.
* **Sample windows** (`Sliding`, `Windows`, `Logger`, `DataLogger`, `LoggerRuns`, `LoggerStream`, `Extract`): the sliding
  buffer shifted in place, the bounded queue, the session files, and the extraction tool that reads them back.
* **Battery** (`Battery`, `PowerManager`): interpolation, smoothing, hysteresis.

Each class method is specified by a function on plain values; the runs and the main lemmas are about those functions.
What these functions say is tied to plain facts beside them: byte layouts, known answers, times and limits in numbers.
Main results: `DeliverySafety.SyncedOnlyByItsAck`, `DeliverySafety.OnlyOverflowForgets`,
`DeliveryCycles.FlagsEarnedInTheirHistory`, `DeliveryPumping.PumpCatchesUp`, `DeliveryTimes.GivenUpLate`,
`DeliveryTable.OneSlotPerNumber`, `DeliveryTable.NothingUnaccounted`, `Frame.BurstRejected`, `Frame.FewFlipsRejected`,
`Crc16Answers.LeadingZerosDetected`, `EventFates.FirstSyncDates`, `SyncPaging.WalkSkipsNothing`,
`Ota.RebootsIntoTheImage`, `FlasherRuns.StopAndWaitRestartsOnImage`, `LoggerStream.ExtractReturnsTheStream`.

## Where the code and its documentation, or its intent, differ

The model follows the code. Each point is a lemma with a concrete input or an exact condition.

* The rate governor lets ten events through within 1000 ms (`Governor.TwoWindowsMeet`); docs/ble-protocol.md:435 says
  five. Ten is the worst case (`Governor.AtMostTwoWindowsPass`); how many pass, and so exactly when five is kept, is
  `Governor.LimitKeptIff`.
* `applyTimeSync` sets the clock before it reads the uptime, and `getSystemUptime` reads that clock. The stamp is then the
  documented one only under the condition of `TimeSync.StampAfterSetIff`, and forty days early in an ordinary case
  (`TimeSync.StampAfterSetIsEarly`). The formula itself is the documented one up to one second
  (`TimeSync.StampAgainstDocumented`).
* The recheck after the gap of `handleAck` compares only the sequence number, and a reconnect starts numbering afresh. If
  no reconnect falls into the gap, an ACK frees only the message it looked up (`DeliveryTable.FinishFreesOwn`); so it is
  where the radio's callbacks for data and for connections (src/Services/BLEManager.cpp:21-22 and 106,
  src/main.cpp:166-172 and 206-209) run one after another. Where they do not, an old ACK can free a message of the new
  session (`DeliveryTable.StaleAckFreesNewMessage`, exact condition `DeliveryTable.RecheckFindsOwnIff`). Even then no
  event is lost: it stays unsynced in the ring.
* A retry pass reads the clock once, before it takes the lock of any slot. A message that another task sends in between
  looks overdue to it, because the difference of the two readings wraps, and is transmitted again at once
  (`DeliveryTimes.StaleReadingRetransmits`); docs/ble-protocol.md:411 promises the timeout in between. It is kept exactly
  if the pass does not read the clock from before the last transmission (`DeliveryTimes.RetransmittedLateIff`). The
  timeout is the same before every retry (`DeliveryTimes.ActedOnIff`), where docs/ble-protocol.md:274 promises an
  exponential back-off.
* A backup of an empty ring is read as no backup, so fast-forwarded ids are handed out again after a power loss
  (`PowerCycles.CounterSurvivesIff`); docs/ble-protocol.md:490 says the id survives.
* The Flasher never compares what it wrote with the announced size, and does not notice a skipped chunk
  (`FlasherRuns.ShortImageRestarts`, `FlasherRuns.SkippedChunkRestarts`); docs/ble-protocol.md:578 promises a check of size
  and CRC. What does hold, for which clients, is `FlasherRuns.WholeImageIff` and `FlasherRuns.StopAndWaitRestartsOnImage`.
* A flush and-s the counts returned by its writes into one flag. It reports success exactly if all four are odd and the
  events were written (`HistoryServices.HistoryService.FlushToNvs`); if they are byte counts, 4 and 2, a complete flush
  reports failure (`HistoryServices.ByteCountsReportFailure`). What the storage library returns is not part of this model.
* The flag for an estimated time is set and then wiped before a new event is stored: no run ever leaves it on a stored
  event (`HistoryRuns.NeverMarkedEstimated`).
* The check of RTC memory covers the event buffer only. Indices and counters never change its verdict
  (`HistoryServices.IndicesUnchecked`), and a head past the end of the buffer passes and is kept
  (`HistoryServices.HistoryService.Init`). No walk then reaches it: the loops that look for events never end
  (`HistoryServices.OutOfRangeHeadPasses`; a walk ends exactly if head lies inside, `HistoryServices.WalkEndsIff`). The
  methods of the class are specified for states with indices inside.

## Model

| member | source | states |
|---|---|---|
| Crc16.Calculate | src/Domain/ProtocolDefs.h:272-285 | the nested shift loop over a buffer leaves the register of the whole prefix |
| Crc16.ShiftNInjective | src/Domain/ProtocolDefs.h:276-281 | shifting the register loses nothing: equal results come from equal registers |
| Crc16.RunInjective | src/Domain/ProtocolDefs.h:274-283 | feeding the same bytes to different registers never brings them together |
| Crc16.Residue | src/Services/ProtocolHandler.cpp:92-95 | two trailer bytes drive the register to zero exactly when they spell the register before them |
| Crc16Answers.KnownAnswer | src/Domain/ProtocolDefs.h:272-285 | the register starts at FFFF, and the digits one to nine leave 29B1 |
| Crc16Answers.LeadingZerosDetected | src/Domain/ProtocolDefs.h:272-285 | up to 4095 zero bytes in front of any message change its register |
| Crc16Burst.BurstSeparates | src/Domain/ProtocolDefs.h:272-285 | any difference that spans at most 16 bits, wherever it lies, changes the register |
| Crc16Parity.RunParity | src/Domain/ProtocolDefs.h:272-285 | the parity of the register is the parity of the start register and of all the data bits |
| Crc16Parity.FlipsParity | src/Domain/ProtocolDefs.h:272-285 | an odd number of flipped bits flips the parity of a byte string |
| Crc32.Update | src/Domain/ProtocolDefs.h:313-321 | the in-place CRC-32 loop folds a prefix of the buffer into any given register |
| Crc32.Calculate | src/Domain/ProtocolDefs.h:302-311 | the one-shot CRC-32 is the complement of the fold from all ones |
| Crc32.RunConcat | src/Domain/ProtocolDefs.h:313-321 | the fold over any split into pieces equals the fold over the whole |
| Crc32.RunInjective | src/Domain/ProtocolDefs.h:313-321 | the same bytes never bring two different CRC-32 registers together |
| Crc32.ChangeDetected | src/Domain/ProtocolDefs.h:302-311 | a change confined to four consecutive bytes changes the checksum |
| Crc32.FieldSpells | src/Domain/SampleWindow.h:64 | a checksum stored low byte first reads back as itself |
| Crc32Answers.KnownAnswer | src/Domain/ProtocolDefs.h:302-311 | the checksum of nothing is 0, that of the digits one to nine CBF43926 |
| Crc32Answers.ResidueConstant | src/Domain/ProtocolDefs.h:302-311 | every message followed by its stored checksum has the checksum 2144DF1C |
| Frame.BuildFrame | src/Services/ProtocolHandler.cpp:69-100 | writes exactly the frame of the message, refuses only payloads over 500 bytes, leaves the rest of the buffer |
| Frame.ParseFrame | src/Services/ProtocolHandler.cpp:103-151 | accepts exactly the byte strings that decode, and returns the fields and the payload range of the message |
| Frame.Layout | src/Services/ProtocolHandler.cpp:69-100 | every frame byte by byte: A5, type, version 1, number and length high byte first, payload, register high byte first |
| Frame.AckOfSeven | src/Services/ProtocolHandler.cpp:210-217 | the whole frame that acknowledges message 7, as eleven literal bytes |
| Words.BigEndian | src/Services/ProtocolHandler.cpp:499-502 | numbers in frames and payloads are read and written high byte first |
| Frame.DecodeEncode | src/Services/ProtocolHandler.cpp:69-151 | every built frame parses to its type, sequence number and payload |
| Frame.EncodeDecode | src/Services/ProtocolHandler.cpp:103-151 | every accepted byte string is the one frame its parsed fields build |
| Frame.BurstRejected | src/Services/ProtocolHandler.cpp:135-141 | a frame damaged within any 16 consecutive bits, in header, payload, trailer or across them, is rejected |
| Frame.AdjacentBytesRejected | src/Services/ProtocolHandler.cpp:135-141 | a frame altered within two adjacent bytes only is rejected |
| Frame.AcceptedParity | src/Services/ProtocolHandler.cpp:135-141 | every accepted frame holds an even number of one bits |
| Crc16Order.SquareShift | src/Domain/ProtocolDefs.h:276-281 | squaring the register as a polynomial turns one shift into two |
| Crc16Order.NoShorterPeriod | src/Domain/ProtocolDefs.h:276-281 | shifting a single bit, the register does not return to it in fewer than 32767 steps |
| Crc16Flips.TwoFlips | src/Domain/ProtocolDefs.h:272-285 | two flipped bits anywhere in up to 4094 bytes leave different registers |
| Crc32Burst.BurstDetected | src/Domain/ProtocolDefs.h:302-311 | a change confined to 32 consecutive bits, starting anywhere in a byte, changes the CRC-32 |
| Frame.OddFlipsRejected | src/Services/ProtocolHandler.cpp:135-141 | a frame with an odd number of bits flipped, anywhere, is rejected |
| Frame.FewFlipsRejected | src/Services/ProtocolHandler.cpp:135-141 | one, two or three flipped bits, anywhere in a frame, are always rejected |
| HistoryServices.HistoryService.LogDetection | src/Services/HistoryService.cpp:150-222 | appends the new event, field by field, at the end of the stored events, giving up the oldest when full, and returns its id; without the lock it returns 0 and changes nothing |
| EventFates.StoredAs | src/Services/HistoryService.cpp:180-215 | field by field what a logged event is stored with, and that the others stay but for the oldest of a full ring |
| EventFates.TimeOfLogged | src/Services/HistoryService.cpp:192-206 | through any later run an event logged under a valid clock keeps that time, and one logged without has none while no time sync comes |
| EventFates.FirstSyncDates | docs/ble-protocol.md:315 | the first time sync after an undated event gives it the documented time, less the carry, and no later operation changes that |
| EventFates.SyncDatesAll | src/Services/HistoryService.cpp:1022-1064 | a time sync dates every undated event of this boot that lies in its past and changes no other |
| EventFates.NextIdAbove | src/Services/HistoryService.cpp:1131-1155 | after a fast-forward the next id lies above the given one and above all before |
| Events.Layout | src/Domain/DetectionEvent.h:9-27 | the packed event byte by byte, low byte first, five reserved zeros |
| HistoryServices.HistoryService.GetNextUnsynced | src/Services/HistoryService.cpp:272-295 | finds the oldest stored event that is not synced exactly if there is one and the lock is obtained |
| HistoryServices.HistoryService.GetUnsyncedEvents | src/Services/HistoryService.cpp:297-320 | copies out the oldest unsynced events, as many as asked for; none without the lock |
| HistoryServices.HistoryService.GetEventsSince | src/Services/HistoryService.cpp:465-491 | copies out the oldest stored events with a higher id, as many as asked for; none without the lock |
| HistoryServices.HistoryService.MarkAsSynced | src/Services/HistoryService.cpp:322-350 | under the lock sets the flag of the first stored event with that id and nothing else, and says whether there was one; without it does nothing |
| HistoryServices.HistoryService.MarkMultipleAsSynced | src/Services/HistoryService.cpp:352-386 | under the lock marks each id in turn and returns by how much the number of unsynced events fell; without it does nothing |
| HistoryServices.HistoryService.GetEventCount | src/Services/HistoryService.cpp:552-559 | is the number of stored events, and the 16-bit difference for impossible indices |
| HistoryServices.HistoryService.ApplyTimeSync | src/Services/HistoryService.cpp:1022-1064 | under the lock stamps every stored event of this boot without a timestamp, and changes nothing else; without it only notes that the time is known |
| HistoryServices.HistoryService.FastForwardEventId | src/Services/HistoryService.cpp:1131-1155 | under the lock raises the id counter if the given id is higher, and says whether it did |
| HistoryServices.HistoryService.FlushToNvs | src/Services/HistoryService.cpp:561-660 | writes key by key: what each key holds afterwards for every outcome of every write, when success is reported, and that a complete flush reads back as exactly the current contents |
| HistoryServices.HistoryService.RestoreFromNvs | src/Services/HistoryService.cpp:662-713 | takes over exactly what the keys say, whatever they say, and returns the count of its indices in eight bits |
| HistoryServices.HistoryService.ValidateState | src/Services/HistoryService.cpp:533-540 | passes exactly when the magic number is right and the stored CRC is that of the event buffer |
| HistoryServices.HistoryService.Init | src/Services/HistoryService.cpp:75-148 | keeps RTC memory that passes its check untouched, whatever its indices; otherwise starts from the backup in a new boot or from nothing |
| HistoryServices.RingDamageDetected | src/Services/HistoryService.cpp:522-540 | damage to at most four consecutive raw bytes of the buffer, reserved ones included, or to the stored CRC alone, or another magic number, fails the check |
| HistoryServices.RingBytesAt | src/Services/HistoryService.cpp:522-527 | the bytes the check covers are the 24 of every slot of the buffer, in order |
| HistoryServices.IndicesUnchecked | src/Services/HistoryService.cpp:522-540 | head, tail, boot count and id counter never change the verdict of the check |
| HistoryServices.WalkEndsIff | src/Services/HistoryService.cpp:279-288 | the step from slot to slot, taken again and again from tail, meets head exactly if head lies inside the ring |
| HistoryServices.OutOfRangeHeadPasses | src/Services/HistoryService.cpp:522-540 | a concrete state whose head points past the buffer passes, and no walk from its tail ever meets that head |
| HistoryServices.ColdBootOfBackup | src/Services/HistoryService.cpp:92-132 | with indices in range, what a boot takes from the backup keys is the abstract cold boot |
| HistoryServices.ByteCountsReportFailure | src/Services/HistoryService.cpp:613-617 | a flush that writes everything and gets byte counts back does not report success |
| HistoryRuns.RingIsNewestLogged | src/Services/HistoryService.cpp:150-222 | after any run the ring is exactly the last N-1 events ever logged, in order |
| HistoryRuns.OverflowFlagExact | src/Services/HistoryService.cpp:172-177 | an event carries the overflow flag exactly when storing it cost the ring an older one |
| HistoryRuns.LogKeepsOrderIff | src/Services/HistoryService.cpp:180 | logging keeps ids ordered exactly unless the 32-bit counter is exhausted while the ring holds events and has room for two |
| HistoryRuns.NeverMarkedEstimated | src/Services/HistoryService.cpp:196-212 | no run leaves the flag of an estimated time on a stored event |
| HistoryRuns.IdsOrderTheRun | src/Services/HistoryService.cpp:150-222 | ids of a run strictly increase and never pass the counter, under logging, marking, time sync and fast-forward |
| TimeSync.StampAgainstDocumented | docs/ble-protocol.md:315 | the backfill stamp is not after the phone's time, and equals the documented epoch or exactly one second less, by an exact rule |
| TimeSync.StampMonotone | src/Services/HistoryService.cpp:1042-1050 | stamps never reorder events |
| TimeSync.LaterSyncIdleIff | src/Services/HistoryService.cpp:1031-1050 | a stamped event is left alone by every later sync exactly when its stamp is not zero |
| TimeSync.SyncIsFinal | src/Services/HistoryService.cpp:1022-1064 | after one sync of a whole ring any later sync changes nothing |
| TimeSync.StampAfterSetIff | src/Services/HistoryService.cpp:1009-1018 | when the clock is set first, the stamp of any past event is the documented one exactly if the seconds taken off are those of the real uptime, less a carry |
| TimeSync.StampFromZero | src/Services/HistoryService.cpp:1042-1050 | a phone whose clock is behind the uptime dates the boot at zero |
| TimeSync.ReadBackIs | src/HAL/HAL_Base.cpp:10-14 | the clock read back is the set time with the fraction of a second, while its milliseconds fit 32 bits |
| TimeSync.StampAfterSetIsEarly | src/HAL/HAL_Base.cpp:10-14 | a concrete sync in November 2023 stamps an event forty days early |
| PowerCycles.PowerLossRestoresCopied | src/Services/HistoryService.cpp:595-704 | after copy, more work, write and anything but another write, a power loss brings back the copied ring in a new boot |
| PowerCycles.CounterSurvivesIff | src/Services/HistoryService.cpp:100-111 | over copy, work, write and power loss, the id counter survives exactly if the copied count is no multiple of 256 or the counter was zero |
| PowerCycles.EventsStayDated | src/Services/HistoryService.cpp:92-132 | in every run of work, flushes and power losses no event claims a later boot than the current one |
| PowerCycles.EarlierBootsNeverStamped | src/Services/HistoryService.cpp:1031-1050 | in every run of work, flushes, warm boots and power losses, what the last power loss restored is of earlier boots, and every stored event of another boot keeps the timestamp it had then |
| Pending.FullIff | src/Services/ProtocolHandler.cpp:986-993 | no free slot is found exactly when every slot is taken |
| Pending.TimeoutSpendsPotential | src/Services/ProtocolHandler.cpp:1154-1165 | every timed-out slot lowers the total of transmissions left by exactly one, any other visit by none |
| Pending.PassesDrain | src/Services/ProtocolHandler.cpp:1134-1191 | passes empty the table once each slot was found overdue more often than the retry limit, whatever locks they miss in between |
| Pending.RetriedWaits | src/Services/ProtocolHandler.cpp:1154-1157 | a message just retransmitted is left alone for the whole timeout, like one just sent, and acted on after it |
| Pending.PassesApart | src/Services/ProtocolHandler.cpp:1139-1157 | two passes no further apart than the timeout transmit no message twice |
| Pending.MissedIsLeft | src/Services/ProtocolHandler.cpp:1142-1144 | a pass leaves alone what it missed the lock of |
| ProtocolHandlers.ProtocolHandler.SendMessage | src/Services/ProtocolHandler.cpp:154-207 | takes a number, tracks, transmits, and gives the slot back if the radio refuses; nothing happens without connection or lock |
| ProtocolHandlers.ProtocolHandler.SendDetectionEvent | src/Services/ProtocolHandler.cpp:824-860 | counts the event against the governor unless it is bypassed, and sends it only if admitted |
| ProtocolHandlers.ProtocolHandler.SendAck | src/Services/ProtocolHandler.cpp:210-217 | hands the radio exactly one frame, which decodes to the acknowledgement of that number under the next own number; nothing without connection or lock |
| ProtocolHandlers.ProtocolHandler.SendNack | src/Services/ProtocolHandler.cpp:219-227 | so for the rejection of a number with its error |
| ProtocolHandlers.ProtocolHandler.TrackPendingLocked | src/Services/ProtocolHandler.cpp:995-1014 | fills the first free slot with the frame, or fails when there is none |
| ProtocolHandlers.ProtocolHandler.ClearPendingLocked | src/Services/ProtocolHandler.cpp:1016-1024 | frees the first slot that holds the number and no other |
| ProtocolHandlers.ProtocolHandler.ValidateAckSecurity | src/Services/ProtocolHandler.cpp:1082-1132 | passes exactly for a number that waits, if the lock is obtained; otherwise counts, starting over after a quiet minute and at the threshold |
| ProtocolHandlers.PhantomsCount | src/Services/ProtocolHandler.cpp:1082-1131 | acknowledgements of nothing, each within a minute of the one before, are counted in tens |
| ProtocolHandlers.QuietMinuteRestarts | src/Services/ProtocolHandler.cpp:1082-1131 | after a quiet minute the count starts again from one |
| ProtocolHandlers.ProtocolHandler.AckFirstSection | src/Services/ProtocolHandler.cpp:425-438 | finds the slot with the number, reads the event id back from its frame, and frees it at once if it holds no event |
| ProtocolHandlers.ProtocolHandler.AckSecondSection | src/Services/ProtocolHandler.cpp:444-452 | frees the remembered slot only if it still holds the number |
| ProtocolHandlers.ProtocolHandler.HandleAck | src/Services/ProtocolHandler.cpp:412-468 | undisturbed, an ACK frees its message and marks exactly the event that message carried; what a missed lock at each of its three places leaves undone |
| ProtocolHandlers.ProtocolHandler.HandleNack | src/Services/ProtocolHandler.cpp:470-481 | frees the message with that number, ignoring payloads that are too short; nothing without the lock |
| ProtocolHandlers.ProtocolHandler.ResetForNewConnection | src/Services/ProtocolHandler.cpp:1054-1079 | restarts numbering, clears the guard, and frees every slot if the lock is obtained |
| ProtocolHandlers.ProtocolHandler.RetrySlot | src/Services/ProtocolHandler.cpp:1141-1177 | one slot of a pass: skipped without the lock, else waits, retransmits and counts, or gives up |
| ProtocolHandlers.ProtocolHandler.ProcessRetries | src/Services/ProtocolHandler.cpp:1134-1191 | one pass does so for every slot whose lock is obtained, and transmits exactly their overdue frames in slot order |
| ProtocolHandlers.ProtocolHandler.GetPendingCount | src/Services/ProtocolHandler.cpp:1194-1200 | is the number of active slots |
| ProtocolHandlers.ProtocolHandler.SendNextSince | src/Services/ProtocolHandler.cpp:511-519 | one turn of the cursor loop sends the first event after the last id, if the fetch obtains the lock and finds one |
| ProtocolHandlers.ProtocolHandler.SendPage | src/Services/ProtocolHandler.cpp:507-528 | the cursor loop sends up to ten events after the id, each the first after the last, up to the first send that fails or fetch that misses its lock, on any ring |
| ProtocolHandlers.ProtocolHandler.HandleSyncRequest | src/Services/ProtocolHandler.cpp:493-532 | hands the radio exactly the frames of such a page and then the acknowledgement of the request, or for a short payload exactly its rejection |
| ProtocolHandlers.BatchDecodes | src/Services/ProtocolHandler.cpp:507-528 | the peer decodes the k-th frame of a page to the k-th event, under consecutive sequence numbers |
| ProtocolHandlers.SectionsClear | src/Services/ProtocolHandler.cpp:430-460 | with nothing in between, the two sections of an ACK free exactly the slot that holds its number |
| SyncPaging.OneByOneIsPage | src/Services/ProtocolHandler.cpp:507-528 | on a ring with ascending ids, fetching one at a time from the last id yields exactly the oldest n later events |
| SyncPaging.SinceAfter | src/Services/HistoryService.cpp:479-485 | asking again from the last id received continues exactly where the answer stopped |
| SyncPaging.ReceivedIsPrefix | src/Services/ProtocolHandler.cpp:507-528 | n requests, each from the last id received, deliver exactly the first 10n events, none twice and none left out |
| SyncPaging.RequestsCatchUp | src/Services/ProtocolHandler.cpp:493-532 | enough requests deliver every stored event after the first id, in order, once |
| SyncPaging.WalkSkipsNothing | src/Services/ProtocolHandler.cpp:507-528 | while logging, marking, syncing and fast-forward change the ring in between, a walk sends increasing ids and skips no event still stored |
| SyncPaging.DrainedWalkSentAll | src/Services/ProtocolHandler.cpp:507-528 | a walk that finds nothing more has sent every later event that is still stored |
| Governor.AtMostTwoWindowsPass | src/Services/ProtocolHandler.cpp:828-854 | over any run with non-decreasing time at most ten events pass in any closed interval of one window length |
| Governor.LimitKeptIff | src/Services/ProtocolHandler.cpp:828-854 | over any run and for any interval, exactly how many offers pass, from the gate at its start and the offers inside it; the documented limit is kept exactly if that is at most five |
| Governor.TwoWindowsMeet | docs/ble-protocol.md:435 | ten events of two consecutive milliseconds all pass |
| Governor.OneWindowKeepsLimit | docs/ble-protocol.md:435 | where no window opens inside the interval exactly as many pass as the current window has room for |
| DeliveryPump.DetectionDeliveryPump.Update | src/Services/DetectionDeliveryPump.cpp:67-106 | offers the oldest unsynced event if the interval has passed, the transport is ready and fewer than eight messages wait; otherwise touches nothing |
| DeliveryPump.ReadyMeansRoom | src/Services/DetectionDeliveryPump.cpp:59-64 | backing off at eight, the pump never lacks a slot and never makes more than eight wait |
| DeliveryTable.LedgerAlways | src/Services/ProtocolHandler.cpp:184-203 | in every interleaving, each waiting message holds the number it was given in this session, and each ACK in its gap remembers a real message |
| DeliveryTable.OneSlotPerNumber | src/Services/ProtocolHandler.cpp:995-1014 | in every interleaving no two waiting messages share a sequence number |
| DeliveryTable.FailedSendFreesOwn | src/Services/ProtocolHandler.cpp:199-203 | a send that the radio refuses frees its own slot and nobody else's |
| DeliveryTable.NackFreesOwn | src/Services/ProtocolHandler.cpp:470-481 | a NACK frees the one message with its number and leaves all others |
| DeliveryTable.PlainAckFreesOwn | src/Services/ProtocolHandler.cpp:453-456 | so does the ACK of a message without an event |
| DeliveryTable.RecheckFindsOwnIff | src/Services/ProtocolHandler.cpp:449-452 | the recheck after the gap finds the message it looked up exactly if the session has not changed |
| DeliveryTable.FinishFreesOwn | src/Services/ProtocolHandler.cpp:444-452 | in every run without a reconnect in a gap, the second half of an ACK changes no slot but that of the message it looked up |
| DeliveryTable.StaleAckFreesNewMessage | src/Services/ProtocolHandler.cpp:438-452 | if another task could reconnect in the gap: from power-on, log, fetch, send, ACK, reconnect in the gap, send again, and the old ACK frees the new message |
| DeliveryTable.NothingUnaccounted | src/Services/ProtocolHandler.cpp:995-1191 | tracked messages = active + acknowledged + refused by NACK + given up + failed sends + cleared on disconnect or reconnect |
| DeliveryRetries.TransmissionsBounded | src/Services/ProtocolHandler.cpp:1154-1190 | in any run no message is transmitted more than once plus the retry limit |
| DeliveryTimes.RetransmittedLateIff | src/Services/ProtocolHandler.cpp:1139-1157 | in every run a message transmitted again has waited more than the timeout since its last transmission exactly if the pass did not read the clock before that |
| DeliveryTimes.ActedOnIff | src/Services/ProtocolHandler.cpp:1154-1165 | a pass that comes to a waiting message transmits it again or gives it up exactly if more than the timeout has passed |
| DeliveryTimes.GivenUpLate | docs/ble-protocol.md:274-275 | a message is given up only after all its transmissions and as many full timeouts since the first |
| DeliveryTimes.StaleReadingRetransmits | src/Services/ProtocolHandler.cpp:1139-1157 | a pass that read 100 before a send at 101 transmits that message again at once |
| DeliveryRetries.TimeoutsRunOut | src/Services/ProtocolHandler.cpp:1134-1191 | without new sends there are at most as many timeouts as the waiting messages have transmissions left |
| DeliverySafety.OnlyOverflowForgets | src/Services/HistoryService.cpp:172-182 | whatever else runs, the ring holds the newest events: none leaves it except to make room |
| DeliverySafety.GenuineAlways | src/Services/DetectionDeliveryPump.cpp:92-97 | every waiting detection frame was built from an event that was really logged |
| DeliverySafety.MarksWereAcknowledged | src/Services/ProtocolHandler.cpp:433-442 | every id being marked, and every synced event, goes back to an ACK that arrived for a frame carrying that id |
| DeliverySafety.SyncedOnlyByItsAck | src/Services/ProtocolHandler.cpp:412-461 | an event that became synced during a run was acknowledged during it, while a slot waited with the frame of that very event |
| DeliveryCycles.RingIsNewestOfItsHistory | src/Services/HistoryService.cpp:92-132 | after any run with flushes, reboots and power losses the ring is exactly the newest events of the history it descends from, ids increasing and below the counter |
| DeliveryCycles.FlagsEarnedInTheirHistory | src/Services/HistoryService.cpp:595-704 | in every such run a synced event was acknowledged, as that very event, at a step of the history the ring descends from; ACKs of a history that a power loss took back count for nothing |
| DeliveryCycles.AcknowledgedBeforeTheCopy | src/Services/HistoryService.cpp:595-704 | after copy, work, write, anything but another write, and a power loss, a synced event was acknowledged before the copy or since the power came back |
| DeliveryCycles.StorageFollows | src/Services/HistoryService.cpp:595-704 | ring, copy and backup of such a run go through a run of module PowerCycles |
| DeliveryPumping.PumpIsUpdate | src/Services/DetectionDeliveryPump.cpp:67-106 | a pump step changes link, governor and clock exactly as the contract of the update method says |
| DeliveryPumping.AttemptIff | src/Services/DetectionDeliveryPump.cpp:59-97 | an update hands the oldest unsynced event on exactly if 150 ms have passed, fewer than eight wait, and link, governor and locks allow it |
| DeliveryPumping.ServedPays | src/Services/ProtocolHandler.cpp:433-442 | one attempt of the pump whose ACK is handled takes at least one event off those owed, whatever else runs in between |
| DeliveryPumping.PumpCatchesUp | docs/ble-protocol.md:416 | in every run where among any m attempts of the pump one is acknowledged, every m attempts take one more event off those unsynced at first, until all that are still stored are synced |
| DeliveryProgress.GuardsOpen | src/Services/DetectionDeliveryPump.cpp:59-90 | once as many messages timed out as had transmissions left, an update outside the interval with room at the governor hands on the oldest unsynced event |
| DeliveryProgress.EverythingCanBeDelivered | docs/ble-protocol.md:416 | from every state, whatever waits, a run of retries, pump updates and ACKs leaves every stored event synced and none lost |
| DeliveryRetries.TimeoutsAlwaysDrain | src/Services/ProtocolHandler.cpp:1154-1165 | from any state a run of retries exists that has exactly as many timeouts as transmissions were left, and changes nothing else |
| Ota.RunSound | src/Services/OTAManager.cpp:390-427 | while a transfer lasts flash holds at least the accepted chunks, never more than announced, and exactly them once it is no longer |
| Ota.TakenInOrder | src/Services/OTAManager.cpp:397-403 | for every stream, lost, repeated or reordered, the j-th chunk accepted is the j-th of the image |
| Ota.RebootsIntoTheImage | src/Services/OTAManager.cpp:430-491 | a reboot happens only with the first chunks of the image in flash, of the announced size and CRC, even if writes came up short |
| Ota.FlashIsTakenIff | src/Services/OTAManager.cpp:405-411 | while receiving, flash is the accepted chunks exactly when no write of this transfer left bytes of an unfinished chunk |
| Ota.ShortWriteDooms | src/Services/OTAManager.cpp:405-460 | once a short write has left bytes behind no commit of that transfer passes |
| Ota.InTurnSucceeds | src/Services/OTAManager.cpp:390-491 | if the stream holds the chunks in turn, with anything in between, and size and CRC are true, the commit passes |
| Ota.StartsIff | src/Services/OTAManager.cpp:306-387 | a start opens an empty transfer of the announced size and CRC exactly under the source's conditions, and otherwise takes nothing |
| Ota.CommitIff | src/Services/OTAManager.cpp:430-491 | a commit reboots exactly if a transfer is under way, its chunks have the announced size and CRC and the device closes it; otherwise the transfer is over |
| Ota.TimedOutStartsOver | src/Services/OTAManager.cpp:530-548 | a transfer that times out is over and its flash given up, and the next start opens as from power-on |
| Ota.AbortStartsOver | src/Services/OTAManager.cpp:494-509 | after a failed commit only an abort lets a new start in |
| OtaManagers.RefusalNames | src/Services/OTAManager.cpp:306-372 | each error of a refused start names exactly the first check that failed |
| Ota.PackedOrder | src/Services/OTAManager.cpp:604-623 | comparing packed versions is comparing by major, minor, patch |
| OtaManagers.OTAManager.HandleStart | src/Services/OTAManager.cpp:306-387 | opens a transfer exactly when idle and every check passes, and reports the first check that fails, by name |
| OtaManagers.OTAManager.HandleData | src/Services/OTAManager.cpp:390-427 | accepts exactly the next chunk if flash takes all of it; counts, size and running CRC stay those of the accepted chunks |
| OtaManagers.OTAManager.HandleCommit | src/Services/OTAManager.cpp:430-491 | reboots exactly if size, CRC and device agree, and names the first that does not |
| OtaManagers.OTAManager.HandleAbort | src/Services/OTAManager.cpp:494-509 | drops the transfer and what it wrote, from any state but idle |
| OtaManagers.OTAManager.Update | src/Services/OTAManager.cpp:530-548 | aborts a transfer whose last chunk is too old, on the wrapping clock |
| FlasherServices.FlasherService.HandleUploadStart | src/Services/FlasherService.cpp:551-617 | opens the chunk buffer only for a new chunk of this session with a fitting size; a repeat is ignored, a bad one ends the session |
| FlasherServices.FlasherService.HandleUploadWrite | src/Services/FlasherService.cpp:619-645 | appends a part to the buffer unless it would pass the announced or the maximal size |
| FlasherServices.FlasherService.HandleUploadEnd | src/Services/FlasherService.cpp:647-660 | queues the chunk exactly if it has its announced size |
| FlasherServices.FlasherService.HandleStart | src/Services/FlasherService.cpp:426-500 | accepts a session exactly when ready and session, size and partition are fit |
| FlasherServices.FlasherService.ProcessPendingChunk | src/Services/FlasherService.cpp:216-278 | writes a queued chunk whole or ends the session, and finishes the update after the last index |
| FlasherServices.FlasherService.ExecutePendingAction | src/Services/FlasherService.cpp:944-1036 | carries out the pending reset, session start or restart, once |
| FlasherServices.FlasherService.RunWatchdogs | src/Services/FlasherService.cpp:1042-1114 | from the stored times, the clock and the battery reading: which watchdogs fire, that one ends the session, and, but for low battery, empties the buffer |
| FlasherServices.SessionEndsIff | src/Services/FlasherService.cpp:1042-1114 | in real times and limits, exactly when a session survives a look at the clock and when it ends, and what it loses |
| FlasherRuns.RunSound | src/Services/FlasherService.cpp:216-278 | in every run of truthful posts: a queued chunk is whole and fits, flash is the committed chunks, written is its length, and a start is pending only when ready |
| FlasherRuns.RestartsOnCommitted | src/Services/FlasherService.cpp:258-267 | the device restarts only with the committed chunks in flash, each index once, in order, up to the last |
| FlasherRuns.TurnsAlwaysKnown | src/Services/FlasherService.cpp:591-617 | after any run, the log of commits is 0, 1, 2 and so on exactly if every committed post of the session was for the chunk after the last one |
| FlasherRuns.WholeImageIff | src/Services/FlasherService.cpp:591-594 | flash holds the image at a restart exactly if every skipped chunk is empty; without empty chunks, exactly if in the last session every committed post was for the chunk after the last one committed |
| FlasherRuns.EachOnceInOrder | docs/ble-protocol.md:573 | with a stop-and-wait client the committed indices are 0, 1, 2 and so on |
| FlasherRuns.StopAndWaitRestartsOnImage | docs/ble-protocol.md:573 | such a client gets a restart only with the whole image in flash, of the announced size exactly if that was true |
| FlasherRuns.RepostIgnored | src/Services/FlasherService.cpp:591-594 | posting a committed chunk again changes nothing |
| FlasherRuns.PostCommits | src/Services/FlasherService.cpp:545-666 | posting a chunk whole, cut into any parts, and one turn of the loop commit it |
| FlasherRuns.PostEndsSessionIff | src/Services/FlasherService.cpp:551-660 | a post ends the session exactly if a header is missing, the session is another, or a new chunk's size is impossible or not as claimed |
| FlasherRuns.ShortWriteEnds | src/Services/FlasherService.cpp:229-241 | a chunk the device does not take whole ends the session and loses what was written |
| FlasherRuns.StrayChunkDropped | src/Services/FlasherService.cpp:221-224 | a chunk queued when no session receives any more is dropped and nothing else happens |
| FlasherRuns.AbortStartsOver | src/Services/FlasherService.cpp:279-300 | an abort at any time leaves the flasher as at startup |
| FlasherRuns.UploadCompletes | docs/ble-protocol.md:568-573 | posting all chunks in turn puts the image into flash and schedules the restart, with the last one and not earlier |
| FlasherRuns.ShortImageRestarts | src/Services/FlasherService.cpp:258-267 | a one-byte image announced as 1024 bytes is restarted into |
| FlasherRuns.SkippedChunkRestarts | src/Services/FlasherService.cpp:591-594 | posting only the last of two chunks restarts into that chunk alone |
| Sliding.CompletedStep | src/Services/DataLoggerService.cpp:186-227 | after n >= W samples exactly (n-W)/S + 1 windows are complete: the next sample completes one exactly when the samples kept fill it |
| Sliding.WindowsOverlap | docs/calibration-sensing-ml.md:294 | neighbouring windows share all but one stride of their samples |
| Sliding.TilesAll | src/Services/DataLoggerService.cpp:225-227 | with a stride of at least the window the windows tile the stream |
| DataLoggers.DataLoggerService.AppendSample | src/Services/DataLoggerService.cpp:177-229 | the k-th window completed is samples kS..kS+W-1 with start time t0 + k*S*period, and is offered exactly then |
| DataLoggers.DataLoggerService.ShiftDown | src/Services/DataLoggerService.cpp:218-222 | the in-place shift moves the kept samples to the front |
| DataLoggers.StartIsFirstSample | src/Services/DataLoggerService.cpp:218-224 | with samples one period apart the start time of every window is the uptime of its first sample |
| Logger.WindowSays | src/Services/DataLoggerService.cpp:198-208 | a stored window is valid and carries its samples, session, label, thresholds, flags, start and the epoch that belongs to it |
| Logger.StartsIff | src/Services/DataLoggerService.cpp:231-268 | a session starts exactly if none is active, storage is mounted and the label valid, and then records under the next id from window 0 |
| Logger.StoppedIsQuiet | src/Services/DataLoggerService.cpp:270-284 | after a stop full windows leave the recorder as it is |
| Logger.FailedWriteEnds | src/Services/DataLoggerService.cpp:382-439 | a turn takes the oldest window off the queue, and recording goes on only if storage, file and space are there for all of it |
| LoggerStream.RecordsEverySample | src/Services/DataLoggerService.cpp:177-184 | from an accepted start on every sample is the session's, in order |
| DataLoggers.DataLoggerService.StartSession | src/Services/DataLoggerService.cpp:231-268 | starts a session with a fresh id and a fresh stream exactly when none is active, storage is mounted and the label is valid |
| DataLoggers.DataLoggerService.StopSession | src/Services/DataLoggerService.cpp:270-284 | ends an active session and nothing else |
| DataLoggers.DataLoggerService.LoggerTurn | src/Services/DataLoggerService.cpp:382-439 | appends as much of the oldest queued window as the file system takes to the file of its own session, and fails unless that is all of it |
| LoggerRuns.EveryWindowAccounted | src/Services/DataLoggerService.cpp:199-216 | windows completed while recording = queued + dropped; queued ones are written, failed or waiting, in order |
| LoggerRuns.IdsCountUp | src/Services/DataLoggerService.cpp:255-263 | the windows queued for a session have ids 0, 1, 2 and so on, however sessions overlap in the queue |
| LoggerRuns.FilesHoldPieces | src/Services/DataLoggerService.cpp:402-433 | each session's file grows by exactly the bytes written for that session, in order, whatever part of a window a write takes |
| LoggerRuns.FilesHoldWritten | src/Services/DataLoggerService.cpp:402-433 | unless a write was cut short, each session's file grows by that session's written windows, in order |
| LoggerStream.TracedAlways | src/Services/DataLoggerService.cpp:186-216 | in every run the windows queued for a session are windows of the samples taken while it was recorded, in order; queued and dropped ones are all of them |
| LoggerStream.ExtractReturnsTheStream | tools/extract_windows.py:158-176 | after a drained queue without failed writes, extracting a session's file lists windows of its sample stream, in order, each with its place and start time; without drops the k-th is the k-th |
| LoggerRuns.ExtractReturnsTheSession | tools/extract_windows.py:158-176 | after a drained queue without failed writes, extracting a session's file returns exactly its windows, in order |
| Windows.AcceptsIffValid | src/Services/DataLoggerService.cpp:48-54 | the tool accepts the bytes of a window exactly if the firmware calls that window valid, over the same covered bytes |
| Windows.Layout | src/Domain/SampleWindow.h:30-70 | a stored window byte by byte, low byte first |
| Windows.ValidMarks | src/Services/DataLoggerService.cpp:48-54 | a valid window starts with the marks the tool looks for |
| Windows.CoveredChangeRejected | tools/extract_windows.py:138-145 | a change within four consecutive covered bytes makes the tool reject a window |
| Windows.CoveredBurstRejected | tools/extract_windows.py:138-145 | so does one within 32 consecutive covered bits, wherever they start |
| Windows.CrcFieldChangeRejected | tools/extract_windows.py:138-145 | so does any change of the stored CRC alone |
| Windows.DamagedWindowInvalid | src/Services/DataLoggerService.cpp:23-54 | the firmware's own check fails on the same damage |
| Extract.ParseSamples | tools/extract_windows.py:105-114 | reads as many samples as were asked for and the data holds |
| Extract.ValidateWindow | tools/extract_windows.py:117-155 | returns header and samples exactly for sound windows that are long enough |
| Extract.SamplesAsCounted | tools/extract_windows.py:105-155 | a sound window shows as many samples as its header counts, byte for byte |
| Extract.ExtractFile | tools/extract_windows.py:158-176 | lists the sound windows of a file with their places |
| Extract.ExtractsEachAlone | tools/extract_windows.py:158-176 | each window is judged alone: a damaged one costs no other, a last one cut short is ignored |
| Extract.ExtractRoundTrip | tools/extract_windows.py:78-176 | reading a file of completed windows gives back exactly those windows |
| Battery.PercentInRange | src/Services/PowerManager.cpp:376-415 | for every falling table the percent lies in 0..100 |
| Battery.PercentMonotone | src/Services/PowerManager.cpp:376-415 | more voltage never shows less charge |
| Battery.PercentHitsEntries | src/Services/PowerManager.cpp:389-393 | every interior table entry is met exactly |
| Battery.OnTheLine | src/Services/PowerManager.cpp:376-415 | between entries the percent is the straight line rounded down; full from the first entry up, empty from the last one down |
| Battery.ShownFollowsAverage | src/Services/PowerManager.cpp:300-348 | after every battery reading of a run the shown percent is in 0..100, within the hysteresis of the rounded average, and not below it while charging |
| Battery.SmallMovesStay | docs/failure-modes.md:305 | a reading that moves the rounded average by less than the hysteresis leaves the display alone, unless charging raises it; any other shows the average |
| Battery.ExternalPowerShowsFull | src/Services/PowerManager.cpp:286-297 | on external power the gauge shows full and not charging and forgets the average |
| Battery.FirstReadingsAveraged | src/Services/PowerManager.cpp:307-314 | until enough readings are in, the average is the plain mean of all of them |
| Battery.SteadyConverges | src/Services/PowerManager.cpp:315-318 | equal readings close the gap to their percent by the same factor each |
| PowerManagers.PowerManager.VoltageToPercent | src/Services/PowerManager.cpp:376-415 | the table search returns the interpolated percent |
| PowerManagers.PowerManager.UpdateBatteryStatus | src/Services/PowerManager.cpp:282-359 | one reading updates average, count, charging and shown percent as specified, keeping them in range |

## Left out

Parameters instead of constants or surroundings: ring size, stride, timeouts, retry limit, queue depth, chunk and
partition sizes, the battery table, and every radio, flash, clock and voltage outcome are inputs.

Assumed, because the code has no recovery for it or its proof is the caller's:
- DeliveryTable.LedgerAlways: assumes that nothing stays outstanding for 65536 sends; numbers have 16 bits and would repeat.
- DeliveryTable.FinishFreesOwn: assumes that no reconnect falls into the gap of an ACK, which holds if the radio library runs its callbacks in one task; that library is not part of this model.
- DeliveryTimes.GivenUpLate: assumes that no pass reads the clock from before a message's last transmission, which `DeliveryTimes.StaleReadingRetransmits` shows can happen, and what DeliveryTable.LedgerAlways assumes.
- DeliverySafety.SyncedOnlyByItsAck: assumes that the 32-bit event id counter does not wrap within the run; `HistoryRuns.LogKeepsOrderIff` is the exact condition.
- LoggerRuns.IdsCountUp: assumes at most 65536 sessions in a run; session ids have 16 bits.
- ProtocolHandlers.ProtocolHandler.SendMessage: detection messages carry at least an event id, as the only caller ensures.
- ProtocolHandlers.ProtocolHandler.HandleAck: states the undisturbed case; interleavings are the two section steps of module Delivery.
- ProtocolHandlers.ProtocolHandler.HandleSyncRequest: as for SendPage, the history does not change during one request; a changing ring is `SyncPaging.WalkSkipsNothing`.
- PowerCycles.PowerLossRestoresCopied: a flush there writes all of its keys; what a partly failed one leaves key by key is HistoryServices.HistoryService.FlushToNvs. One flush runs at a time: those outside the storage worker (src/Services/PowerManager.cpp:725, src/main.cpp:499, src/Services/HistoryService.cpp:1176) could mix their keys with its own, which is not modelled.
- DeliveryCycles.FlagsEarnedInTheirHistory: flushes as above, the id counter as in DeliverySafety.SyncedOnlyByItsAck, and no backup before the run.
- DeliveryPumping.PumpCatchesUp: assumes acknowledgements, as any such statement must, and that the id counter does not wrap.
- LoggerRuns.ExtractReturnsTheSession: assumes no failed write; after one that is cut short, `LoggerRuns.FilesHoldPieces` still says what the file holds, and every later window of that file is out of step.
- FlasherRuns.RunSound: the server reads one post completely before the main loop goes on.
- Battery.ShownFollowsAverage: averages are exact; floating-point rounding is not modelled.

Not modelled:
- Runs of module Delivery reconnect in one step whose lock succeeds; a reset that misses it keeps old slots under restarted numbers.
- Statistics counters, logging, progress reports and diagnostics strings.
- The flush schedule, its request queue and the event counter that triggers it; clearing and the restore command, which the normal flow does not use.
- `handleDetection`, thresholds, calibration, feature extraction and prediction: their logic is not in the sources.
- Dispatch of other messages, configuration, Wi-Fi and time services, the fields of the hello answer, bonding and security.
- The legacy /update endpoint of the Flasher, which writes the phase directly; batteries and radio start-up before it serves; the idle restart.
- OTA self-test, rollback and partition choice; Update, SPIFFS, NimBLE, I2C and ADC internals beyond the contracts given.
- The inference copy of a window, the manifest file, deleting all data, and the rebuilding of the next session id at mount.
- Power states, sleep and boot counters; directory walks, CSV and NumPy output of the extraction tool.
