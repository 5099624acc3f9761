# A verified model of the WhatsApp bridge's stateful core

The bridge relays WhatsApp chats, presence and calls to Matrix. This project models the parts of it
that keep state or run concurrently, in Dafny, and proves what they promise for every input, every
run and every interleaving. `dafny verify dfyconfig.toml` checks all of it.

| file | component |
|---|---|
| `MessageTable.dfy`, `Pagination.dfy`, `DeliveredMessages.dfy` | stored history messages and backward pagination |
| `TimestampRepair.dfy`, `HistoryStore.dfy` | reading history payloads, the upserts, the notification queue |
| `HistoryLoop.dfy` | the two goroutines that drive history sync |
| `TokenBucket.dfy`, `Presence.dfy`, `PresenceRuns.dfy` | the presence manager |
| `CallAudio.dfy`, `CallInbound.dfy`, `CallOutbound.dfy` | resampling, loss concealment, RTP |
| `CallSession.dfy` | the life of a bridged call |
| `WaText.dfy` | WhatsApp markup to HTML |
| `MediaId.dfy` | compact media identifiers |
| `StickerMetadata.dfy` | WebP and EXIF lookup |
| `Album.dfy` | albums, sent and received |
| `Prelude.dfy`, `Binary.dfy` | shared value types and byte orders |

## How it is modelled

Code that changes things in place is a class or a method with loops, proved against a function that
says what it computes; the theorems are about those functions. Concurrent code is a state machine: a
`Step` datatype, `Enabled` and `Next`, and a theorem about every state of every run. Fields named as
history (`unserved`, `kept`, `log`, `done`) only record what happened, so that a theorem can speak of
it. What belongs to a library or to the outside world is a parameter: statements that may fail, the
clock, the codecs as functions of what they were fed so far, printing and parsing of addresses, the
arithmetic of samples.

## Findings

- Pagination can lose messages in three ways. A second in range with more than `Count + 1` messages is
  delivered one page of it and then deleted whole (`Pagination.CrowdedSecondLoses`). A run that ends with
  a fetch that finds nothing, or with a batch of second zero, wipes the chat including what was never in
  range: a message sharing the anchor's second goes undelivered (`Pagination.AnchorSecondWiped`). And a
  message stored under two senders at different seconds can make a run end that way: once one copy is
  the anchor, the other is held back as already bridged and the chat is wiped
  (`Pagination.DuplicateHeldBack`).
- A run delivers all of its range exactly when no second in it is that crowded and the oldest row is not
  held back (`Pagination.RangeDeliveredIff`), and it wipes the chat exactly when the phone has more,
  nothing is in range, the oldest second holds more than `Count` rows, or the oldest row is held back
  (`Pagination.WipesIff`, for positive timestamps). If rows in range with an anchor's ID are delivered,
  as they are when no message is stored twice and anchors are delivered rows or lie outside the range
  (`Pagination.DistinctIdsSuffice`), what a run loses can be read off the table beforehand
  (`Pagination.LosslessForecast`).
- No run delivers a message twice exactly when all stored rows of one message ID share a second
  (`DeliveredMessages.AlwaysOnceIff`); with different seconds and pages of one the room gets it twice
  (`DeliveredMessages.DeliveredTwice`).
- Observed activity checks for a longer online and reports its own in two separate critical sections.
  It cuts a longer online short exactly when one is recorded in between
  (`PresenceRuns.ActivityShortensIff`), and a run does that (`PresenceRuns.ActivityRace`).
- The clamp on future timestamps is a running minimum exactly when no zero timestamp is followed by a
  positive one, because a zero switches the clamp off for the next message
  (`TimestampRepair.PayloadRunningMinIff`).
- A failed read of the notification queue leaves the loop idle over a nonempty queue until the next
  notification arrives (`HistoryLoop.FailedReadStalls`); it is the only way a wakeup is lost
  (`HistoryLoop.NothingStranded`).
- Concealment covers the timeline exactly when no loss exceeds nine packets
  (`CallInbound.TimelineIff`).
- The encoding of a device address writes past its one-byte slice, but no encoder passes a device
  (`MediaId.EncodersNeverPanic`); a numeric user with leading zeros does not come back
  (`MediaId.JIDRoundTripIff`).

## Model

| member | source | states |
|---|---|---|
| MessageTable.MessageQuery.Put | pkg/connector/wadb/message.go:65-76 | inserting chunk by chunk in one transaction equals inserting row by row, first row of a key wins; any failing chunk leaves the table as it was |
| MessageTable.MessageQuery.GetBetween | pkg/connector/wadb/message.go:94-117 | the result is the newest matching rows, newest first, as many as the limit allows; rows left out are no newer than any returned |
| MessageTable.PageReads | pkg/connector/wadb/message.go:94-117 | both time bounds are exclusive and may be missing, and without a limit every matching row comes back |
| MessageTable.MessageQuery.DeleteBetween | pkg/connector/wadb/message.go:119-125 | exactly the chat's rows with timestamps in the closed interval go, and their number is returned |
| MessageTable.MessageQuery.DeleteAllInChat | pkg/connector/wadb/message.go:132-138 | exactly the chat's rows go |
| MessageTable.InsertAllConsistent | pkg/connector/wadb/message.go:57-59 | inserting keeps the timestamp column equal to the timestamp inside each message |
| Pagination.FetchMessages | pkg/connector/backfill.go:532-597 | a fetch returns a page of the rows below anchor and cursor cut by the same-second rule, and deletes only when it returns no batch |
| Pagination.OutcomeReads | pkg/connector/backfill.go:561-597 | a fetch answers nothing exactly for an empty page or the anchor alone; when it says there is more; where a batch starts and ends |
| Pagination.DeleteHistorySyncMessages | pkg/connector/backfill.go:600-609 | the completion delete takes the delivered interval, or the whole chat without a backfill queue or for zero timestamps |
| Pagination.TodoIsOlder | pkg/connector/backfill.go:532-546 | the rows in range are those older than the anchor and older than the cursor |
| Pagination.BatchIsSlice | pkg/connector/backfill.go:578-589 | a batch is every row from its oldest second up, unless a full page holds a single second |
| Pagination.RoundFacts | pkg/connector/backfill.go:600-609 | a completed round deletes exactly the rows in range from the cursor up, which are the delivered rows unless one second overfilled the page, and for second zero the whole chat; exactly the rows below the cursor are still to do and the table has shrunk |
| Pagination.RunIsSweep | pkg/connector/backfill.go:508-598 | every run of fetch and complete rounds sweeps its range from new to old and ends within one round per row plus one |
| Pagination.SweepInOrder | pkg/connector/backfill.go:532-597 | over a whole run no row is delivered twice and timestamps never rise |
| Pagination.NothingLost | pkg/connector/backfill.go:561-589 | with at most Count + 1 rows to a second, only the oldest row is passed over, and only with the last anchor's own message ID |
| Pagination.CrowdedSecondLoses | pkg/connector/backfill.go:578-609 | a second with more rows than that always loses some |
| Pagination.LosslessIff | pkg/connector/backfill.go:532-609 | no second in range with more than Count + 1 rows and, if the run wipes the chat, nothing but anchors outside the range: then every row gone from the table was delivered or is an anchor; and only then, if rows in range with an anchor's ID were delivered (the half about the wipe without that) |
| Pagination.RangeDeliveredIff | pkg/connector/backfill.go:532-597 | the delivered rows are exactly those in range if and only if no second holds more than Count + 1 of them and the oldest is not held back for its ID; each at most once, newest first |
| Pagination.RunLeaves | pkg/connector/backfill.go:532-609 | a run leaves the table without the rows in range, or without the chat if a round wipes it |
| Pagination.WipesIff | pkg/connector/backfill.go:561-578 | with positive timestamps, for any anchors, a run wipes the chat if and only if the phone has more, nothing is in range, the oldest second in range holds more than Count rows, or the oldest row is held back for carrying the last anchor's ID |
| Pagination.LosslessForecast | pkg/connector/backfill.go:532-609 | with positive timestamps and rows in range with an anchor's ID delivered, the exact condition for losing nothing stated on the table before the run |
| Pagination.DistinctIdsSuffice | pkg/connector/backfill.go:547-561 | rows in range with an anchor's ID are delivered if IDs in range are distinct and every anchor names no row in range or a delivered one |
| Pagination.AnchorSecondWiped | pkg/connector/backfill.go:533-562 | for every Count a chat of two messages in one second, one of them the anchor, loses the other |
| Pagination.QueueOffLosslessIff | pkg/connector/backfill.go:603-605 | without a backfill queue the first completed batch loses nothing if and only if the chat has nothing outside the range and the range fits a batch |
| Pagination.DuplicateHeldBack | pkg/connector/backfill.go:561-562 | a run over a message stored under two senders ends by wiping the chat and loses a message of the first anchor's second, with one row to a second in range and pages of one |
| DeliveredMessages.ConvertHistorySyncMessages | pkg/connector/backfill.go:639-688 | the converted batch holds each message ID once, from the place it occurs first, later places of the batch before earlier ones, and no ID is left out |
| DeliveredMessages.DistinctTurnedRound | pkg/connector/backfill.go:680-685 | without repeated IDs the converted batch is the batch turned round |
| DeliveredMessages.ConvertedInTimeOrder | pkg/connector/backfill.go:642-685 | converted messages of a newest-first batch never go back in time |
| DeliveredMessages.EachMessageOnce | pkg/connector/backfill.go:675-685 | over a whole run the room gets each delivered message ID exactly once and nothing else, if rows of one ID share a second |
| DeliveredMessages.DeliversWanted | pkg/connector/backfill.go:578-597 | with pages of one some run delivers any given rows of different seconds |
| DeliveredMessages.AlwaysOnceIff | pkg/connector/backfill.go:639-688 | no run, whatever its page size and anchors, delivers a message ID twice if and only if the chat's rows of one ID share a second |
| DeliveredMessages.DeliveredTwice | pkg/connector/backfill.go:675-685 | two rows of one message at different seconds, with pages of one, are delivered twice |
| TimestampRepair.CollectMessages | pkg/connector/backfill.go:274-330 | the loop writes the repaired timestamps back into the payload and changes nothing else there; its rows are, in order, exactly the messages that parse, are not ignored and serialize, each with its own sender, ID and content and the repaired timestamp |
| TimestampRepair.RowsConsistent | pkg/connector/backfill.go:309-329 | each row's timestamp is the one in its serialized message |
| TimestampRepair.RepairKept | pkg/connector/backfill.go:280-301 | messages that do not parse or are ignored play no part in the repair |
| TimestampRepair.AfterCommentUntouched | pkg/connector/backfill.go:302-305 | from the first comment on, and everywhere if comments were counted, timestamps are left alone |
| TimestampRepair.RunningMinIff | pkg/connector/backfill.go:306-319 | before the first comment stored timestamps are the running minimum if and only if no zero is followed by a positive one |
| TimestampRepair.PayloadRunningMinIff | pkg/connector/backfill.go:278-330 | the same for a payload with unparsable and ignored messages in between |
| TimestampRepair.RepairedNonIncreasing | pkg/connector/backfill.go:306-319 | with positive timestamps the repaired prefix is non-increasing |
| HistoryStore.StoredKeys | pkg/connector/wadb/message.go:23-27 | the stored keys are the old ones and those of the entries; no stored row is ever overwritten and a new one holds a message some entry brought |
| HistoryStore.KeysIgnoreOrder | pkg/connector/backfill.go:350-376 | entries in another order, or repeated, reach the same conversations and message keys, and the same message under every key they agree on |
| HistoryStore.LastMessageIsLatest | pkg/connector/wadb/conversation.go:76-82 | a conversation's last-message time is the latest ever recorded for it |
| HistoryStore.LastSettingWins | pkg/connector/wadb/conversation.go:83-90 | for a coalesced column the last payload to set it decides, and an unset one keeps what was stored |
| HistoryStore.CoalescedFields | pkg/connector/wadb/conversation.go:83-90 | every column but the last-message time is merged that way |
| HistoryStore.SaveTwice | pkg/connector/wadb/conversation.go:68-91 | storing a payload a second time changes nothing, in either table |
| HistoryStore.EntryHasTime | pkg/connector/wadb/conversation.go:43-65 | a stored conversation always has a last-message time, the payload's own if it has one |
| HistoryStore.EntryReads | pkg/connector/wadb/conversation.go:43-65 | which field of a payload goes to which column; the fallback time is that of the first message that parses |
| HistoryStore.PayloadStored | pkg/connector/backfill.go:207-376 | exactly the readable, wanted messages of bootstrap, full, recent and unlisted payloads are stored, under chat, sender and ID; a new row holds such a message's content |
| HistoryStore.HistoryDb.PutNotification | pkg/connector/wadb/hsnotif.go:50-57 | the notification joins the queue under an unused row ID |
| HistoryStore.HistoryDb.GetNext | pkg/connector/wadb/hsnotif.go:59-73 | some queued notification with its row ID, nothing exactly when the queue is empty |
| HistoryStore.HistoryDb.HandleHistorySync | pkg/connector/backfill.go:189-385 | the tables it would commit are those with every usable conversation stored; ignored types store nothing; it fails exactly when a statement does |
| HistoryStore.HistoryDb.DownloadAndSave | pkg/connector/backfill.go:124-187 | queue row and stored data change together or not at all, under every failure and panic; which outcomes ask for the timer |
| HistoryStore.ExactlyOnceAlways | pkg/connector/backfill.go:162-187 | in every history of failures, panics and retries each accepted notification is queued once or stored once, and the tables are those of one clean pass |
| HistoryStore.AttemptOutcome | pkg/connector/backfill.go:142-187 | in every run an attempt stores the data and empties the queue row exactly when nothing fails before the commit, and otherwise changes nothing |
| HistoryStore.DrainedLikeCleanPass | pkg/connector/backfill.go:67-93 | once the queue has drained, conversations, message keys, last-message times and every message the payloads agree on equal a clean pass in arrival order |
| HistoryStore.ConsistentAlways | pkg/connector/backfill.go:316-329 | in every reachable state the timestamp column agrees with the stored messages |
| HistoryLoop.NothingStranded | pkg/connector/backfill.go:36-122 | in every interleaving a queued notification will be looked at unless the last read failed, a saved batch will get a creation run, and an idle loop with the flag up has left the timer armed, expired or received |
| HistoryLoop.StepKeepsInv | pkg/connector/backfill.go:55-104 | every atomic step of loop, creator, timer and producers keeps that |
| HistoryLoop.CreationComesCloser | pkg/connector/backfill.go:55-66 | while the loop stays idle with a saved batch a timer or creator step is possible, each brings the creation run closer, and producers never set it back |
| HistoryLoop.FailedReadStalls | pkg/connector/backfill.go:72-74 | a run in which a failed queue read leaves a notification with nothing to wake the loop |
| HistoryLoop.NothingSavedNothingCreated | pkg/connector/backfill.go:98-103 | in every interleaving, as long as no batch wanting portals is saved and no run is left over, the flag stays down, the timer stopped and the creator waiting |
| HistoryLoop.RearmedForTheFlag | pkg/connector/backfill.go:101-103 | the timer is armed only in a turn in which the loop saw the flag up |
| HistoryLoop.TimerRestsWhileBusy | pkg/connector/backfill.go:71-103 | from its wakeup to the end of its turn the loop keeps the timer stopped |
| HistoryLoop.WakeupWasSent | pkg/connector/backfill.go:46-93 | a wakeup present was sent after the loop last took one |
| HistoryLoop.FlagWasRaised | pkg/connector/backfill.go:58-100 | a flag that is up was raised by a saved batch after the last run took it down, or is left over |
| HistoryLoop.OneRunPerArming | pkg/connector/backfill.go:55-61 | an armed timer was armed after it last expired or was stopped, and each expiry is received and served once |
| HistoryLoop.PausesAfterError | pkg/connector/backfill.go:83-91 | after an error the loop pauses before it takes another wakeup |
| TokenBucket.Limiter.Allow | pkg/presence/presence.go:275-287 | refill up to the burst for the elapsed time, then take one token if there is one |
| TokenBucket.AllowKeepsLimited | pkg/presence/presence.go:275-287 | every call keeps all stretches of granted calls within burst plus rate times duration |
| TokenBucket.WindowBound | pkg/presence/presence.go:262-287 | in any time window at most burst plus rate times length calls are granted |
| TokenBucket.GrantedIff | pkg/presence/presence.go:275-287 | a call is granted if and only if a whole token has accrued |
| TokenBucket.AllowKeepsFloor | pkg/presence/presence.go:275-287 | a bucket keeps at least what it had plus what accrued, up to the burst, less what was granted |
| Presence.WithDefaults | pkg/presence/presence.go:55-74 | every setting ends up positive, and positive settings are kept |
| Presence.Manager.EvictOne | pkg/presence/presence.go:169-183 | drops the settled record touched longest ago, and nothing if none is settled |
| Presence.Manager.Update | pkg/presence/presence.go:108-139 | records the report; first sight of anything but online counts as sent; never more than MaxTracked records |
| Presence.Manager.CheckActivity | pkg/presence/presence.go:146-161 | what the first critical section decides to report: online until five minutes after the activity, or after now if its time is unknown or in the future, unless that is past or a longer online is known |
| Presence.Manager.ScanDue | pkg/presence/presence.go:192-224 | expires and forgets, then lists exactly the records whose change was not sent within the debounce or whose online was last sent a refresh ago, each once with the state wanted, online first and longest waiting first |
| Presence.Manager.FinishSend | pkg/presence/presence.go:232-240 | a failed send moves the time but not the sent state |
| PresenceRuns.ActivityShortensIff | pkg/presence/presence.go:157-165 | with anything happening between check and update, activity cuts a longer online short if and only if one was recorded in between; a tracked user it reports is online until five minutes after it |
| PresenceRuns.ActivityAlone | pkg/presence/presence.go:144-166 | with no report about the user in between no longer online is cut short and a tracked user is online for five minutes |
| PresenceRuns.ActivityRace | pkg/presence/presence.go:157-165 | a run in which the report of an open-ended online falls in between and is cut to five minutes |
| PresenceRuns.ScanExpires | pkg/presence/presence.go:197-210 | a scan takes an online back exactly when its time is over and forgets exactly the settled records untouched for an hour |
| PresenceRuns.ReportRecorded | pkg/presence/presence.go:108-139 | what a report leaves in the record: idle as offline, what was sent kept, first sight counted as sent unless online |
| PresenceRuns.MakesRoom | pkg/presence/presence.go:121-124 | a record is given up only by a full table, and is the settled one left alone for longest |
| PresenceRuns.FirstOnlineIsDue | pkg/presence/presence.go:121-139 | a user first seen online is listed by the next scan unless that has run out |
| PresenceRuns.AttemptFollows | pkg/presence/presence.go:201-211 | an attempt the scan was right to list may follow the record's history, whatever was reported in between |
| PresenceRuns.SendHistory | pkg/presence/presence.go:192-246 | in every run, while a record is kept, attempts are at least min(Debounce, Refresh) apart, successive onlines at least Refresh apart, and two offlines never follow each other |
| PresenceRuns.RateBound | pkg/presence/presence.go:226-231 | in every run and time window all attempts together stay within Burst plus RatePerSecond times its length |
| PresenceRuns.TickServes | pkg/presence/presence.go:192-246 | in every run a tick that the limiter does not end attempts every change owed and every online to be repeated, with the state wanted at its scan |
| PresenceRuns.TokensAccountedFor | pkg/presence/presence.go:226-231 | in every run, from any moment to any later one, tokens are at least what was there plus what accrued, up to the burst, less the attempts since |
| PresenceRuns.RefusedOnlyWhenSpent | pkg/presence/presence.go:226-231 | the limiter refuses only when the attempts since any earlier moment used up all but a token of what the rate allows |
| PresenceRuns.QuietAndBounded | pkg/presence/presence.go:121-139 | a user only ever reported offline is never sent, at most MaxTracked records exist, no online or unsettled record is dropped |
| PresenceRuns.OnlineFirst | pkg/presence/presence.go:217-231 | in every run, as long as a user waits to appear online, so also when the limiter ends a tick, every send of that tick was to online |
| CallAudio.LowPass.Apply | pkg/connector/callaudio.go:101-117 | the frame is the convolution over history and frame, and the history becomes the last samples seen |
| CallAudio.FilterRecords | pkg/connector/callaudio.go:107-113 | every output adds up the whole kernel in order, tap k times sample i + k of history and frame |
| CallAudio.ImpulseResponse | pkg/connector/callaudio.go:107-113 | in integer arithmetic an impulse out of silence comes out as the kernel, last tap first |
| CallAudio.FilterStreams | pkg/connector/callaudio.go:66-117 | for any cut of the input, filtering frame by frame is one convolution of the whole stream |
| CallAudio.UpFrame | pkg/connector/callaudio.go:129-135 | stuffs with zeros, scales and filters |
| CallAudio.StuffedReads | pkg/connector/callaudio.go:129-134 | every third sample is a scaled input sample, the two after it are silent |
| CallAudio.UpStreams | pkg/connector/callaudio.go:124-135 | the upsampler on any cut equals stuff-and-filter of the whole stream |
| CallAudio.DownFrame | pkg/connector/callaudio.go:146-153 | filters, then keeps every third sample |
| CallAudio.DecimatedReads | pkg/connector/callaudio.go:146-152 | the samples at multiples of three are kept, those stuffing puts there |
| CallAudio.DownStreams | pkg/connector/callaudio.go:142-153 | on frames that are multiples of three the downsampler equals filter-and-decimate of the whole stream |
| CallAudio.Framer.Push | pkg/connector/callaudio.go:165-175 | frames of the fixed size; frames and held remainder concatenate to what came in, and less than a frame is held |
| CallInbound.MatrixToWA.Feed | pkg/connector/callpump.go:101-117 | emitted frames plus the remainder stay the whole stream, downsampled |
| CallInbound.ConcealGap | pkg/connector/callbridging.go:597-607 | the decoder calls are exactly: one concealment after the other up to the gap or the first failure, none for a gap of ten or more |
| CallInbound.PumpMatrixToWA | pkg/connector/callbridging.go:586-619 | whatever fails, the decoder calls are exactly those the packets ask for, and everything it put out is in the frames or the held remainder, downsampled as a whole |
| CallInbound.EveryPacketDecoded | pkg/connector/callbridging.go:597-615 | whatever fails, every packet is decoded once and in order and no more is concealed than the gaps ask for; all of it if nothing fails |
| CallInbound.TimelineIff | pkg/connector/callbridging.go:596-609 | over in-order packets with 16-bit wrap-around decoded plus concealed frames equal the span if and only if every loss is at most nine |
| CallInbound.DecodedInPlace | pkg/connector/callbridging.go:596-615 | on an in-order stream with small losses every packet is the decoder call at its distance from the first packet |
| CallInbound.ConcealedElsewhere | pkg/connector/callbridging.go:596-609 | and every other decoder call is a concealment |
| CallInbound.FramesOut | pkg/connector/callpump.go:94-117 | n frames of 20 ms give n / 3 WhatsApp frames and hold the rest |
| CallInbound.PumpInOrder | pkg/connector/callbridging.go:586-619 | a stream with small losses on whose calls the decoder puts out 20 ms each yields a third of its span in frames of 960 samples, which with a remainder of (span mod 3) x 320 samples are the decoder's whole output, downsampled |
| CallInbound.PcmPipe.Push | pkg/connector/callpump.go:149-165 | at most eight frames are held, the newest; the oldest is dropped and counted |
| CallInbound.PcmPipe.ReadFrame | pkg/connector/callpump.go:171-183 | the oldest held frame in order, silence when empty, end of file when closed |
| CallOutbound.Encoder.Encode | pkg/connector/callopus.go:89-98 | the codec is fed the frame after all before it, and the result is a slice of the shared buffer |
| CallOutbound.Packetiser.Next | pkg/connector/callopus.go:171-190 | the counters are where the closed form puts them after any number of frames |
| CallOutbound.WAToMatrix.EncodeOne | pkg/connector/callpump.go:59-77 | a silent frame takes a number but makes no packet; a packet owns its payload |
| CallOutbound.WAToMatrix.Frame | pkg/connector/callpump.go:55-80 | the codec is fed the upsampled frame 20 ms at a time until it fails; the packets are the numbered non-silent payloads; an error returns none but keeps the numbers |
| CallOutbound.SendAll | pkg/connector/callbridging.go:541-556 | after a whole call the packets still hold exactly what the codec made of the call's frames, numbered in order |
| CallOutbound.EncodeAllReads | pkg/connector/callpump.go:55-63 | each payload is the codec's answer to the frames up to its own, and the codec sees one frame after the other up to the one it fails on |
| CallOutbound.FedIsStream | pkg/connector/callpump.go:51-63 | over a call without codec errors in frames of whole 20 ms the codec is fed the stuffed and filtered whole stream, in order and without a gap |
| CallOutbound.ChunkAt | pkg/connector/callpump.go:58-59 | the frames fed are consecutive stretches of 960 samples |
| CallOutbound.StreamNumbered | pkg/connector/callopus.go:143-190 | every packet has its frame's sequence modulo 2^16 and timestamp modulo 2^32, frames go out in order, at most one packet is marked |
| CallOutbound.FramesNumbered | pkg/connector/callopus.go:171-190 | exactly the frames that are not silent and whose call succeeded go out, in order, frame n with sequence s0 + n modulo 2^16, timestamp t0 + 960 n modulo 2^32 and its own payload |
| CallSession.StepKeepsInv | pkg/connector/callbridging.go:161-207 | every step keeps the active session the only installed one that has not finished ending |
| CallSession.OneCallAtATime | pkg/connector/callbridging.go:388-417 | in every interleaving at most one unfinished session, the active one; at most one reject or hangup, one answer, one start of the pumps each |
| CallSession.NeverActiveAgain | pkg/connector/callbridging.go:629-674 | a finished session and a call refused as busy never become active |
| CallSession.SlotFreed | pkg/connector/callbridging.go:663-671 | an ending that runs through frees the slot |
| CallSession.EndingTells | pkg/connector/callbridging.go:636-659 | in every interleaving an ending rejects an incoming call nobody had begun to answer when it looked, hangs up any other, and does neither without a call or without being asked to |
| CallSession.BusyIsRefused | pkg/connector/callbridging.go:161-207 | a call that finds the slot taken at either check is turned away, and rejected if it came in; one that finds it free holds it after the second |
| CallSession.NoAnswerOnceCancelled | pkg/connector/callbridging.go:388-395 | once its ending has cancelled it nobody begins to answer a session |
| CallSession.ActsOnACall | pkg/connector/callbridging.go:388-417 | only an incoming, claimed call is answered, and pumps start only for an installed session with a call |
| WaText.LinesJoin | pkg/msgconv/wa-text.go:105-106 | the lines joined again are the text and hold no line break |
| WaText.ClassifyIff | pkg/msgconv/wa-text.go:82-155 | a line is a bullet, a numbered item or a quote exactly when it is typed as one, and plain exactly when it is typed as none |
| WaText.NumberReads | pkg/msgconv/wa-text.go:130 | the number of one or two digits |
| WaText.FormatLine | pkg/msgconv/wa-text.go:110-166 | one turn of the list state machine |
| WaText.FormatRun | pkg/msgconv/wa-text.go:105-172 | a run of text line by line, with the open list closed at the end |
| WaText.TurnReads | pkg/msgconv/wa-text.go:110-166 | every turn leaves a browser where the variables say, having shown what was typed |
| WaText.RunKeepsMeaning | pkg/msgconv/wa-text.go:105-172 | for every text lists are balanced, never nested or left open, items are in lists of their kind, lines of text are separated once, no number is spelled out that counts on anyway, and each line shows as typed with the number typed |
| WaText.Format | pkg/msgconv/wa-text.go:174-213 | the formatted pieces in order |
| WaText.ScanFaithful | pkg/msgconv/wa-text.go:174-213 | pieces and fences concatenate to the text, text before a block holds no fence, every block is nonblank and as short as it can be |
| WaText.FormatKeepsMeaning | pkg/msgconv/wa-text.go:174-213 | the HTML of a whole text is well formed and shows what was typed |
| MediaId.ReadCompact | pkg/waid/mediaid.go:310-322 | the field and the rest put together are the input; otherwise too short |
| MediaId.FieldIff | pkg/waid/mediaid.go:50-62 | a field comes back if and only if it is shorter than 256 bytes |
| MediaId.JIDRoundTripIff | pkg/waid/mediaid.go:251-304 | an address without device comes back if and only if numeric users have no leading zeros and written-out ones survive the library |
| MediaId.JIDOnTheWire | pkg/waid/mediaid.go:251-275 | the bytes of an address without device |
| MediaId.DeviceRead | pkg/waid/mediaid.go:287-296 | the parser reads an address with device |
| MediaId.ParserRefuses | pkg/waid/mediaid.go:238-304 | which addresses, message IDs and media IDs are refused |
| MediaId.MsgIDRoundTrip | pkg/waid/mediaid.go:227-249 | every message ID comes back, hexadecimal or not |
| MediaId.MsgIDOnTheWire | pkg/waid/mediaid.go:227-236 | upper-case hexadecimal IDs go as 1 and two digits to a byte, others as 0 and themselves |
| MediaId.EncodersNeverPanic | pkg/waid/mediaid.go:254-263 | no encoder reaches the device branch |
| MediaId.MessageRoundTrip | pkg/waid/mediaid.go:40-63 | a message's ID parses to chat, picked sender, overriding or own ID, receiver and version |
| MediaId.OnTheWire | pkg/waid/mediaid.go:40-110 | the bytes of made IDs: type, then length-prefixed fields in order |
| MediaId.PickedSender | pkg/waid/id.go:90-95 | the hidden address goes into the ID exactly in a hidden-address chat for a sender known by phone number whose hidden address is known |
| MediaId.AvatarRoundTrip | pkg/waid/mediaid.go:65-81 | an avatar's ID parses to its target, ID, receiver and kind |
| MediaId.StickerRoundTrip | pkg/waid/mediaid.go:99-110 | a sticker's ID parses to its pack, hash and receiver |
| MediaId.LegacyRoundTrip | pkg/waid/mediaid.go:124-160 | IDs without type byte and version still parse |
| MediaId.KindsNeverCollide | pkg/waid/mediaid.go:32-38 | made IDs of different kinds differ |
| MediaId.MessageIDsInjective | pkg/waid/mediaid.go:40-63 | equal message IDs come from equal chat, picked sender, overriding or own ID, receiver and version |
| MediaId.AvatarIDsInjective | pkg/waid/mediaid.go:65-81 | equal avatar IDs come from equal target, ID, receiver and kind |
| MediaId.StickerIDsInjective | pkg/waid/mediaid.go:99-110 | equal sticker IDs come from equal pack, hash and receiver |
| MediaId.LoginRoundTrip | pkg/waid/id.go:64-80 | a login ID comes back from its address |
| MediaId.LoginReads | pkg/waid/id.go:64-80 | a login is a phone number address without device, and only such an address is one |
| StickerMetadata.FindWebPChunk | pkg/msgconv/wa-sticker.go:391-411 | on any bytes it ends with an in-range slice or an error, and equals the walk |
| StickerMetadata.HeaderReads | pkg/msgconv/wa-sticker.go:392-394 | a file is taken for WebP exactly when it starts with RIFF, four bytes and WEBP |
| StickerMetadata.ChunkLookup | pkg/msgconv/wa-sticker.go:391-411 | in any written file the first payload of the type is found, or that there is none |
| StickerMetadata.FindEXIFTagValue | pkg/msgconv/wa-sticker.go:413-455 | on any bytes it ends with an in-range slice or an error, and equals the directory walk |
| StickerMetadata.RefusedIff | pkg/msgconv/wa-sticker.go:413-427 | too little data, another byte order mark or another magic number are refused, and only they |
| StickerMetadata.OrderReads | pkg/msgconv/wa-sticker.go:418-421 | II is least significant byte first, MM most significant first |
| StickerMetadata.EntriesLookup | pkg/msgconv/wa-sticker.go:438-454 | however values are laid out the first entry with the tag is found |
| StickerMetadata.TagLookup | pkg/msgconv/wa-sticker.go:413-455 | in any written directory of either byte order the first entry's bytes are found, inline or by offset |
| StickerMetadata.ExtractStickerMetadata | pkg/msgconv/wa-sticker.go:374-382 | the tag's bytes in the EXIF chunk |
| StickerMetadata.StickerRoundTrip | pkg/msgconv/wa-sticker.go:374-455 | metadata written into a file is what the lookup returns |
| Album.NewAlbumParent | pkg/msgconv/wa-album-send.go:59-97 | announces the numbers of images and videos with the first item's reply and timer, nothing below two items |
| Album.MediaKindReads | pkg/msgconv/wa-album-send.go:28-37 | images and videos that are not GIFs can be in an album |
| Album.InheritedReads | pkg/msgconv/wa-album-send.go:67-78 | the announcement takes over reply and timer of the first album item and nothing else |
| Album.LinkAlbumItems | pkg/msgconv/wa-album-send.go:101-122 | links every album item in place, numbered in order, and returns how many |
| Album.LinkReads | pkg/msgconv/wa-album-send.go:101-110 | linking sets the association and leaves the rest of the message alone |
| Album.UnwrapForAlbum | pkg/msgconv/wa-album.go:107-123 | strips up to five wrappers |
| Album.UnwrapUndoesWrapping | pkg/msgconv/wa-album.go:107-123 | up to five wrappers of any kind come off, and no more |
| Album.WrapperPrecedence | pkg/msgconv/wa-album.go:109-119 | which of several wrappers side by side is followed |
| Album.RoleIff | pkg/msgconv/wa-album.go:55-65 | a message announces an album exactly if it carries an announcement, and otherwise is an item exactly if it or the message it comes with points at a parent as album media |
| Album.WrappedRole | pkg/msgconv/wa-album.go:84-95 | wrapping does not change what a message is to an album |
| Album.CountReads | pkg/msgconv/wa-album.go:50-52 | the announced counts are added up, an unset one as zero |
| Album.NewAlbumBatch | pkg/msgconv/wa-album.go:80-104 | each item's index is the number of its siblings that came before; counts are those of the last announcement |
| Album.IndexesInOrder | pkg/msgconv/wa-album.go:96-101 | indexes of an album rise in order of arrival |
| Album.EveryIndexTaken | pkg/msgconv/wa-album.go:96-101 | every index below the number of siblings belongs to an item, so they are exactly 0 .. k - 1 |
| Album.SenderReceiverAgree | pkg/msgconv/wa-album-send.go:99-122 | parent, count and indexes the receiver reads are those the sender set |
| Album.SendAndRead | pkg/msgconv/wa-album.go:79-104 | sending and reading back: announced exactly from two items on, with the sender's count and indexes |
| Album.NextAlbumIndex | pkg/msgconv/wa-album.go:137-145 | one past the highest index seen for the album |

## Left out

- Forward backfill, fetching from the phone and rows inserted between a fetch and its completion.
- Pagination.LosslessIff: takes timestamps below 2^63, so that the column and the message's unsigned timestamp compare alike, and one anchor per round that is not older than the cursor.
- HistoryStore.HistoryDb.DownloadAndSave: on-demand payloads are handed out elsewhere and store nothing here; the backfill task mark that shares the transaction is not modelled.
- HistoryLoop.NothingStranded: shutdown is not modelled, and manual history download is taken to be on, since only then are notifications queued.
- HistoryStore.DrainedLikeCleanPass: columns merged by COALESCE, and the contents of rows that two payloads bring differently under one key, depend on the order; `HistoryStore.CoalescedFields` says how.
- Portal creation itself, conversation deletion and its cascade.
- TokenBucket.WindowBound: over exact reals; rounding of the source's floating point is not modelled.
- Kernel design with sine and cosine: the kernel is any sequence of 31 values.
- CallAudio.DownStreams: needs frame lengths that are multiples of three, as the source asks of its callers.
- CallOutbound.FedIsStream: needs frames of whole 20 ms, as the source's own frame size makes them; the source carries no remainder over.
- CallInbound.PumpInOrder: duplicates and reordering are not in-order streams and are outside it.
- CallSession.OneCallAtATime: the order of answering against ending is not settled; both are calls made outside the locks.
- Leg clean-up, ICE candidates and Matrix call events.
- Inline bold, italic, strikethrough, code and links within a line.
- WaText.ScanFaithful: text is a sequence of characters; invalid UTF-8 is not modelled.
- MediaId.JIDRoundTripIff: addresses have user, device and server; agent and integrator numbers are not modelled, and printing and parsing belong to a library.
- StickerMetadata.FindEXIFTagValue: integers are those of a 64-bit machine.
- Album.SenderReceiverAgree: items are values in an array, so the same message object listed twice is not modelled; albums are below 2^31 items.
- Message type dispatch, polls, locations, business messages, capabilities, login, commands, direct media, media upload and image conversion.
