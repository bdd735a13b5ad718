# Verified model of the mesh transport and its Node.js client

This project models the parts of the repository that run over a lossy radio and
proves what holds over whole runs of them. Each stateful component comes in three
layers: a specification of one step as a function on the whole state (`…Model`), the
class or loop that updates its fields in place and is proved to make exactly those
steps, and lemmas about all runs of the steps (`…Safety` and its neighbours).

| component | step functions | in place | what every run keeps |
|---|---|---|---|
| push codec | `PushCodec` | `PushCodec.EncodeRepair`, `ReadRepairIds` | `PushCodec`, `FrameBytes` |
| push transfer | `PushModel` | `PushReceiver`, `ClientPush` | `PushSafety`, `PushBlend`, `PushLiveness`, `PushRepair`, `PushAlarms`, `PushTimers` |
| pull transfer | `PullCodec`, `PullModel`, `FetchModel`, `FetchTurns` | `ChunkClient`, `ClientFetch` | `PullHistory`, `PullSafety`, `PullBlend`, `PullCount`, `FetchWaits`, `FetchTurns`, `FetchSafety`, `FetchCount`, `FetchPrompt`, `FrameBytes` |
| saved partials | `PartialStore` | `PartialStore` | `Resume` |
| command queue | `QueueModel` | `CommandQueue` | `QueueSafety`, `QueueSends`, `QueueOrder`, `QueueEndings`, `QueueEarly`, `QueueOverlap` |
| airtime accounting | `AirModel` | `AirTime` | `AirSafety` |
| radio transmit pump | `TxModel` | `Transport` | `TxSafety`, `TxScans`, `TxResend`, `TxTiming`, `TxWake`, `TxSchedule`, `TxLatency` |
| radio receive side | `RxModel` | `RxSide` | `RxSafety`, `RxDelivery`, `RxRepeats` |

`Wire`, `IdSets`, `Ether` and `Word32` hold what these share: bytes and windows of a
payload, sets of chunk identifiers, the air a client loop listens to, 32-bit arithmetic. `Routing` is the dispatch between the two
transfer protocols.

The environment is as hostile as the program has to expect. Frames are lost, repeated,
reordered and interleaved with other pids, other protocols and noise; clocks read
whatever they read; the radio answers each call as it likes; timers and settled sends
come in any order. Where a result needs an honest device, that is a predicate over the
frames that arrive (`PushSafety.Honest`, `PullSafety.Honest`), and it constrains only
announcements and chunk bodies. The checksum is an uninterpreted function.

`dafny verify dfyconfig.toml` checks the project.

## Where the code falls short of its own description

The model follows the code. Each of these is a lemma, with the exact condition under
which the property does hold where there is one.

- A chunk with an empty body is encoded and never decodes (`PushCodec.RoundTrip`).
- START is repeated without bound while a receiver holds nothing
  (`PushLiveness.StartRetriesAreUnbounded`); every other wait is bounded, exactly, by
  `PushLiveness.NoEternalWait`.
- A push chunk carries its identifier and nothing else of its payload. With several payloads
  under one pid, DONE always means the announced one, and "CRC mismatch" cannot happen, exactly
  when they have the same bytes wherever two of them have a window (`PushBlend.RightIff`); the
  mismatch alone can happen exactly when some mixture of windows fails the length or the
  checksum (`PushBlend.MismatchIff`).
- A pull client is on the pid of the last manifest that arrived, whatever pid it was
  asked to fetch (`PullSafety.FollowsLastManifest`; `PullSafety.ForeignManifestIsAdopted` is
  an instance). `ClientFetch.Fetch` returns the payload that was asked for when nothing else
  is announced.
- A chunk is accepted by pid and count alone, an announcement recognised by pid, length
  and count. Payloads under one pid are therefore mixed in some run exactly when two of
  them have equally many chunks and the longer is not the shorter followed by zeros
  (`PullBlend.NeverMixedIff`); `PullSafety.SameShapeReplacementBlends` is a case in which
  the client completes with neither.
- A BUSY is guarded by its pid so that a stale one cannot throttle another fetch; a GONE
  is not, so a stale one ends whichever fetch hears it and discards its partial
  (`PullSafety.GoneOfAnyPidStops`; `PullSafety.ForeignGoneStops` is an instance).
- `seed` after a first chunk loses that chunk and keeps its claim
  (`PullSafety.SeedAfterChunkCorrupts`), unless the partial has the chunk as well;
  `PullSafety.SeedKeepsInvIff` says exactly when seeding is harmless, and
  `ClientFetch.Resume` that this is exactly when the fetch is. `fetch` seeds as soon as it can,
  but a chunk may come first.
- `clearPartial` deletes the buffer before the sidecar. A crash between the two leaves
  claims that nothing backs, and a later crash in a save can make every further resume
  fail (`Resume.HalfClearedPoisonsResume`). Such a crash is harmless in every later history
  exactly when there was no sidecar or the payload is all zeros on every chunk it claims,
  zeros being what the next fetch starts with (`Resume.DyingInClearIsSafeIff`).
- A matching reply may overtake the return of the send of the command in flight: its own
  answer, or a late one to an earlier command. The settled command is pending or in flight
  again in some continuation, and transmitted again in some continuation, exactly when its
  send had not returned, it had a retry left and it was waiting for a reply
  (`QueueEarly.SettledOnceIff`, `QueueEarly.EarlyReplyRepeatsIff`;
  `QueueSafety.EarlyReplyRepeatsCommand` is an instance). Two commands can then be outstanding,
  and another command can be lost track of - neither pending nor in flight nor settled -
  exactly when that send had not returned; without a further call, exactly when a command was
  pending as well (`QueueOverlap.OverlapIff`).
- The repository's README.md:32-37 says that the airtime rings rotate on read. The
  readers do not. At any later moment they add up the true window and everything that has
  expired since the last airLog (`AirSafety.ReadersLagBehind`), and the percentage they return
  is that of the moment exactly when the two sums agree or both reach the cap
  (`AirSafety.ReadersAreTrueIff`). `AirSafety.QuietRadioStaysBusy` is an extreme.
- wake() starts the state machine over and leaves the head frame where it is. With w of them a
  due head is gone within w + 1 times its bound (`TxWake.HeadLeavesDespiteWakes`), and without
  a limit on them it can stay for ever (`TxWake.WakesDeferForever`).
- A frame is held up by one that is due later and was accepted before it. It leaves within
  sixteen bounds of the moment it and all before it are due, and never before that moment
  (`TxLatency.EveryFrameInTime`).
- The signed comparison of clock values holds a frame back exactly when the time since it
  was due lies in the upper half of the 32-bit range (`TxTiming.HeldBackIff`). So a frame
  that has been due for 2^31 ms waits, and one that is due in more than 2^31 ms, for which
  `scheduleNextTxIn` has room, goes out at once. With delays of up to d ms no run sends a
  frame early if and only if d is at most 2^31 (`TxSchedule.NeverEarlyIff`).
- `resend()` is described as repeating the last transmitted frame
  (src/MeshtasticTransport.h:108-113) and as repeating the last built frame
  (src/MeshtasticTransport.cpp:507-514). One buffer holds both, and it repeats whichever
  was written last (`TxResend.ResendRepeatsLastPut`): the last built one exactly when no
  other was the last to be started since (`TxResend.RepeatsLastBuiltIff`), the last
  transmitted one exactly when no other was the last to be built since
  (`TxResend.RepeatsLastStartedIff`). `TxSafety.ResendMayRepeatOlder` and
  `TxResend.ResendMayRepeatUnsent` are inputs on which the one and the other wording fails.
- A received packet that is dropped for want of room stays in the dedupe ring, so its
  retransmission is refused (`RxSafety.DroppedIsNotRetried`) until eight other packets have
  been accepted (`RxRepeats.RetryIsAcceptedIff`). That nine keys in a row are distinct
  holds of acceptance. Of delivery it holds wherever no drop falls among the nine
  (`RxRepeats.NineWithoutDropAreDistinct`), and every pattern of drops among them admits a
  repeat (`RxRepeats.AnyPatternAdmitsRepeat`): a packet can be delivered again m places
  later with d drops in between exactly when m + d is nine or more (`RxRepeats.RepeatIff`).

## Model

| member | source | states |
|---|---|---|
| PushCodec.RoundTrip | clients/node/lib/chunk-push.js:81-211 | every message of the seven types that an encoder accepts fits 231 bytes and decodes to itself; the one exception is a chunk with an empty body |
| PushCodec.ChunkRoundTrip | clients/node/lib/chunk-push.js:98-106 | a chunk frame is five bytes longer than its body and comes back unchanged unless the body is empty |
| PushCodec.RepairRoundTrip | clients/node/lib/chunk-push.js:126-134 | any list of 1..113 identifiers survives encoding and decoding, order included, in one radio frame |
| PushCodec.Canonical | clients/node/lib/chunk-push.js:149-211 | whatever decodes has a push type, and re-encoding it gives a prefix of the buffer, exactly unless a progress reply has reserved bits set; all of it for a chunk |
| PushCodec.EncodeRepair | clients/node/lib/chunk-push.js:126-134 | the in-place encoder writes the frame of the specification and refuses an empty or over-long list |
| PushCodec.ReadRepairIds | clients/node/lib/chunk-push.js:193-202 | the decoder's loop reads back the whole list of an accepted repair frame |
| FrameBytes.PushEncodes | clients/node/lib/chunk-push.js:81-146 | every push frame byte by byte, big-endian, for every message; only a chunk body over 226 bytes and a repair list that is empty or longer than 113 are refused |
| FrameBytes.PushDecodes | clients/node/lib/chunk-push.js:149-211 | exactly which byte strings decode, by type, length and repair count, and that the message has these bytes at the front, reserved bits of a progress reply aside |
| PushModel.MissingExact | clients/node/lib/push-receiver.js:145-150 | the missing list is strictly increasing and contains exactly the identifiers below the count that are not held |
| PushModel.NothingMissing | clients/node/lib/push-receiver.js:192-199 | the list is empty exactly when every identifier below the count is held |
| PushModel.TickKeepsReceived | clients/node/lib/push-receiver.js:159-226 | no tick touches what has been received, and none changes a receiver that is DONE or failed |
| PushModel.TickSends | clients/node/lib/push-receiver.js:181-226 | which of the four requests a tick sends is decided by what is held: START exactly when nothing is, REPAIR exactly on a finished pass with gaps and for exactly the first batch of them, COMPLETE exactly on entering DONE |
| PushModel.SentFramesDecode | clients/node/lib/push-receiver.js:159-244 | every frame a receiver sends fits the radio and is read by the device as the message meant, under the receiver's pid |
| PushReceiver.PushReceiver.constructor | clients/node/lib/push-receiver.js:70-99 | a new receiver holds nothing and has never heard or sent anything |
| PushReceiver.PushReceiver.OnFrame | clients/node/lib/push-receiver.js:103-142 | on any bytes, the fields make exactly the specified step; true is returned for our chunks, manifests and progress replies only |
| PushReceiver.PushReceiver.Missing | clients/node/lib/push-receiver.js:145-150 | the scan returns the list characterised by MissingExact, or nothing without a manifest |
| PushReceiver.PushReceiver.Assemble | clients/node/lib/push-receiver.js:249-261 | the loop yields the concatenation, or nothing on a gap, a wrong length or a wrong checksum |
| PushReceiver.PushReceiver.Tick | clients/node/lib/push-receiver.js:159-226 | the fields make exactly the step that ActsOnlyOnTime and ActsAccordingly describe, and the bytes returned encode its message |
| PushReceiver.PushReceiver.Act | clients/node/lib/push-receiver.js:179-226 | the same for the part behind the timers |
| PushReceiver.PushReceiver.Query | clients/node/lib/push-receiver.js:230-244 | the same for a progress query, the give-up included |
| PushReceiver.PushReceiver.AskRepair | clients/node/lib/push-receiver.js:205-225 | the same for a repair round, the give-up included |
| PushSafety.PushSafety | clients/node/lib/push-receiver.js:103-261 | in every run against an honest device, DONE means that the payload is assembled byte for byte; exactly one COMPLETE is sent, with its checksum, and none before; "CRC mismatch" cannot happen; DONE and failed exclude each other |
| PushSafety.RunSafe | clients/node/lib/push-receiver.js:103-244 | the same as an invariant, from any state that satisfies it |
| PushSafety.ConcatIsPrefix | clients/node/lib/push-receiver.js:249-258 | concatenating the first n held windows gives that prefix of the payload |
| PushSafety.FullSetAssembles | clients/node/lib/push-receiver.js:249-261 | a full set of honest windows always passes the length and checksum tests |
| PushSafety.RunStores | clients/node/lib/push-receiver.js:103-129 | after any run of consistent frames, the chunk map is exactly what was held plus what arrived, and the manifest is the one announced |
| PushSafety.OrderAndDuplicationAreNonEvents | clients/node/lib/push-receiver.js:103-129 | two runs with the same set of consistent frames end with the same chunks, manifest, missing list and assembled result, whatever order, repetition and ticks they had |
| PushSafety.KeepsFirstManifest | clients/node/lib/push-receiver.js:121-129 | with no assumption on the frames, the first manifest that arrives stays for good |
| PushSafety.KeepsLatestBodies | clients/node/lib/push-receiver.js:111-119 | and of every chunk the body that arrived last |
| PushBlend.RightIff | clients/node/lib/push-receiver.js:111-129 | for any set of payloads under the pid, over every run of their announcements and chunks and any other frames: no CRC mismatch on a complete set, and DONE means the announced payload, if and only if the payloads have the same bytes wherever two of them have a window |
| PushBlend.MismatchIff | clients/node/lib/push-receiver.js:192-199 | the CRC mismatch can happen in some run if and only if some mixture of windows, as many as an announced payload has, differs from it in length or checksum |
| PushBlend.MixtureEnds | clients/node/lib/push-receiver.js:103-199 | for every mixture, a run that ends with it: DONE with the mixture if it passes for the announced payload, and the CRC mismatch if not |
| PushLiveness.NoEternalWait | clients/node/lib/push-receiver.js:159-244 | with a chunk or a manifest held and silence from then on, the receiver is DONE or failed exactly when a computed number of ticks has passed the timers, at most maxUnanswered + 2 |
| PushLiveness.SilenceEnds | clients/node/lib/push-receiver.js:31-68 | in clock terms: maxUnanswered + 2 ticks that far apart always end the transfer |
| PushLiveness.StartRetriesAreUnbounded | clients/node/lib/push-receiver.js:179-184 | with nothing held, every tick past the timers sends START and none ever ends the transfer |
| PushLiveness.TerminalForever | clients/node/lib/push-receiver.js:159-160 | DONE and failed are absorbing under all frames and ticks, and silent |
| PushLiveness.EndsExclude | clients/node/lib/push-receiver.js:159-244 | no run, honest or not, is both DONE and failed |
| PushRepair.RepairEffort | clients/node/lib/push-receiver.js:203-225 | when all identifiers that arrive lie in a set, at most maxStale times its size repair requests are ever sent |
| PushRepair.RepairEffortInCounts | clients/node/lib/push-receiver.js:203-225 | for a device of n windows that is maxStale * n; with no assumption on the frames at all, maxStale * 65536 |
| PushRepair.RunSpendsBudget | clients/node/lib/push-receiver.js:203-225 | the same from any reachable state, by a budget that every repair spends and growth of the held set never refills |
| PushRepair.RoundFillsBatch | clients/node/lib/push-receiver.js:219-225 | an answered repair round asks for exactly the first batch of gaps and leaves exactly the others, and the next one will not be refused as stale |
| PushRepair.FillFirstGaps | clients/node/lib/push-receiver.js:145-150 | holding the first n missing identifiers too leaves the rest of the missing list, in order |
| PushRepair.RepairConverges | clients/node/lib/push-receiver.js:203-225 | k answered rounds leave the missing list without its first 113 k entries, so m gaps are closed after exactly ceil(m / 113) rounds |
| PushAlarms.DeadOnlyAfterSilence | clients/node/lib/push-receiver.js:230-244 | "device unresponsive" is declared only if maxUnanswered - 1 queries or more were sent after the last frame of any kind for us |
| PushAlarms.StuckOnlyWithoutGrowth | clients/node/lib/push-receiver.js:205-218 | "stuck" is declared only if maxStale repair requests were sent after the held set last grew |
| PushAlarms.MessagesAreSpaced | clients/node/lib/push-receiver.js:172-177 | whatever arrives and whatever the clock reads, two messages are never closer than the shorter of the two timers |
| PushAlarms.FlagsAreHistory | clients/node/lib/push-receiver.js:103-142 | after any run, the flags are what the device said: done since the last repair, a query unanswered, the time of the last sign of life |
| PushAlarms.EveryRepairAnswersDone | clients/node/lib/push-receiver.js:201-225 | a repair is requested only after the device said it finished a pass, and each such reply is good for one request |
| PushTimers.ActsOnlyOnTime | clients/node/lib/push-receiver.js:159-177 | over every run: a tick makes a receiver act - send, or give up - if and only if it has not ended and a whole timer has passed both since the last frame heard and since it acted last; the short timer if a manifest was heard and either the device has said done since the last repair or every chunk announced was heard, and the long one otherwise |
| PushTimers.ActsAccordingly | clients/node/lib/push-receiver.js:179-244 | and what it then does, from what was heard: START with nothing heard; COMPLETE or the CRC failure with everything; with gaps after a done the first 113 of them, or stuck exactly after maxStale repairs without growth; otherwise a query, or unresponsive exactly after maxUnanswered of them without a frame |
| PushTimers.StagesAreHistory | clients/node/lib/push-receiver.js:103-225 | phase and round count are the stages the transfer has been through |
| ClientPush.Push | clients/node/index.js:281-307 | the loop lives through the slots one by one, in each its frames in order and then one tick, and ends after the first in which the receiver is DONE or failed or the deadline has passed; how it ends is decided by the receiver: the failure it gave up with, the assembled payload, a checksum error, or the deadline if it is still alive; against an honest device it returns the payload, gives up or times out, and its checksum error cannot happen |
| ClientPush.Deliver | clients/node/index.js:147-155 | frames that arrive during a sleep reach the receiver in order, each at its own time |
| Routing.RoutingLosesNothing | clients/node/index.js:147-157 | dispatching on the first byte loses nothing: every receiver and client, in every state, would have ignored what is kept from it |
| PullCodec.PullRoundTrip | clients/node/lib/chunk.js:73-82 | the command text reads the pull back as it was meant, the count clamped to 1..16 |
| PullCodec.DeviceFramesRoundTrip | clients/node/test/offline-fetch.js:68-99 | the manifests, chunks and BUSY answers a device builds decode to what it meant |
| FrameBytes.PullDecodes | clients/node/lib/chunk.js:41-71 | the decoder field by field on every byte string, ERR frames included: what is too short for its type is refused, and an unknown type passed on as such |
| FrameBytes.PullEncodes | clients/node/lib/chunk.js:73-82 | the pull and the frames of a device byte by byte, the count clamped to 1..16 |
| ChunkClient.ChunkClient.constructor | clients/node/lib/chunk.js:97-120 | a new client has no manifest and no buffer |
| ChunkClient.ChunkClient.OnFrame | clients/node/lib/chunk.js:166-218 | on any bytes, the fields and the buffer make exactly the specified step; a buffer is replaced only by a fresh one |
| ChunkClient.ChunkClient.Adopt | clients/node/lib/chunk.js:189-200 | a new manifest starts over with a zeroed buffer of the announced length |
| ChunkClient.ChunkClient.CopyInto | clients/node/lib/chunk.js:208-210 | the chunk's bytes are in place and no other byte of the buffer has changed |
| ChunkClient.ChunkClient.Seed | clients/node/lib/chunk.js:140-144 | the saved bytes replace the buffer if they fit it, claims in range are added, and without a manifest it is refused |
| ChunkClient.ChunkClient.RequestNext | clients/node/lib/chunk.js:147-163 | the two scans ask for the run that AsksFirstGap characterises |
| ChunkClient.ChunkClient.ClearBusy | clients/node/lib/chunk.js:107-108 | the latch goes and nothing else changes |
| PullHistory.ClientIsHistory | clients/node/lib/chunk.js:166-218 | after any list of frames whatever: the manifest fields are those of the announcement in force, which is replaced only by one that differs in pid, length or count; the chunks held are those taken since, namely of its pid and count, in range and within the buffer; every byte is that of the last of them to cover it, or zero; gone means an ERR of code 1 since |
| PullHistory.CompleteIff | clients/node/lib/chunk.js:122-126 | the client is complete exactly when a payload of at least one chunk is in force and every one of its chunks has been taken since |
| PullSafety.Reassembly | clients/node/lib/chunk.js:166-218 | whatever is lost, repeated, reordered or announced again, with several payloads on the air, every held slot of the buffer carries the bytes of the payload the client is on |
| PullSafety.FrameSafe | clients/node/lib/chunk.js:166-218 | each single frame keeps that |
| PullSafety.CompleteIsVerified | clients/node/lib/chunk.js:122-126 | complete then implies that the buffer is the payload and verified; and complete means that every identifier is held |
| PullSafety.SeedKeepsInvIff | clients/node/lib/chunk.js:131-144 | seeding a backed partial keeps the invariant exactly when it agrees with the buffer on every slot held and not claimed; in particular before the first chunk |
| PullSafety.SeedAfterChunkCorrupts | clients/node/lib/chunk.js:140-144 | the input on which it does not: complete, verified before, wrong after |
| PullSafety.FollowsLastManifest | clients/node/lib/chunk.js:178-201 | after any run the client is on the pid announced last |
| PullSafety.ForeignManifestIsAdopted | clients/node/lib/chunk.js:189-200 | an instance: pid 2 announced during a fetch of pid 1 takes it over, and what was held is gone |
| PullSafety.SameShapeReplacementBlends | clients/node/lib/chunk.js:185-188 | an instance in which the second announcement is not even noticed and the client completes with neither payload; the general statement is PullBlend.NeverMixedIff |
| PullBlend.NeverMixedIff | clients/node/lib/chunk.js:178-212 | for any set of payloads, several under one pid included: in every run of their announcements and chunks, in any order and number and among any other frames, each held slot has the bytes of the payload whose announcement was adopted last, and complete means all of it, if and only if any two under one pid differ in their number of chunks or in trailing zeros at most |
| PullBlend.RunKeepsOn | clients/node/lib/chunk.js:166-218 | the invariant behind the one half: every byte of the buffer is the adopted payload's or zero, and the payload's on every held slot |
| PullBlend.MixedCompletes | clients/node/lib/chunk.js:203-212 | the run behind the other: after the longer's announcement and the shorter's chunks, the client is complete with the shorter and zeros |
| PullSafety.RemembersLastBusy | clients/node/lib/chunk.js:170-176 | after any run, the wait a client remembers is that of the last BUSY for the payload announced by then, and no BUSY for another payload touches it |
| PullSafety.GoneOfAnyPidStops | clients/node/lib/chunk.js:147-154 | after any run, nothing is asked for exactly when there is no manifest, or nothing is missing, or a GONE of whatever pid arrived since the payload was announced |
| PullSafety.ForeignGoneStops | clients/node/lib/chunk.js:214-217 | an instance: pid 7 called gone stops a fetch of pid 9 that lacks a chunk |
| PullCount.ExactPullCount | clients/node/lib/chunk.js:147-163 | on a lossless link with no BUSY, from any held set and for any batch, the transfer completes after exactly the sum over maximal missing runs of ceil(length / batch) pulls, and then nothing is asked for |
| PullCount.RoundSavesOne | clients/node/lib/chunk.js:147-163 | each answered pull lowers that sum by exactly one |
| PullCount.FillSavesOne | clients/node/lib/chunk.js:147-163 | so does filling the front of the first missing run, up to a batch |
| PullCount.AsksFirstGap | clients/node/lib/chunk.js:147-163 | a request names the first missing identifier and as much of its run as the clamped batch allows; there is none exactly when nothing is missing |
| ClientFetch.FetchChunks | clients/node/index.js:393-447 | on any air the loop makes the turns that FetchTurns.Ends describes - which client, after how many pulls, and with what outcome: stalled exactly after twelve silent pulls in a row, timed out exactly when the time is up - and leaves the files as they were written at the last progress, or none if it returned or the payload was gone; honest devices: what it returns is the payload of the client's pid, the CRC error cannot happen, and the partial left on disk is backed; one identity and no BUSY for it from here on: at most 12 * (count - received at the start) pulls; no GONE either and every pull answered in full while it waits: it returns the payload after exactly the sum over missing runs of ceil(length / batch) pulls; only the pid asked for announced: the client stays on it |
| FetchTurns.EndsRightInWorld | clients/node/index.js:393-447 | every claim about honest, steady, lossless and wanted air of the row above, for the turns as functions of the air, whatever the client starts with |
| FetchTurns.TurnsOnSchedule | clients/node/index.js:393-447 | on a lossless air every turn is a pull with progress, and pulls made and pulls needed add up |
| FetchTurns.NothingSavedIsLost | clients/node/index.js:368-379 | a fetch that stopped after any number of turns on any air, and a later one whose announcement agrees in crc, count and length: it goes on with every byte and every chunk in range that the first had after its last progress |
| FetchPrompt.LosslessAirExists | clients/node/index.js:404-431 | that count is reached: for every payload, held set, batch and timers, given time enough, there is an air that answers each pull in full while it waits |
| FetchCount.HeardSavesOne | clients/node/index.js:404-431 | a pull whose answer is heard in full, in any order, repeated or not, lowers that sum by exactly one and adds a chunk |
| ClientFetch.Pull | clients/node/index.js:404-441 | on any air, one pull ends when and how FetchWaits.PullWaits says - one sleep, a BUSY, progress or silence - with the client as what was heard until then makes it; the files on disk are rewritten exactly on progress, and then match the client |
| FetchWaits.PullWaits | clients/node/index.js:404-441 | on any air and from any client: a pull with nothing to ask for is one sleep; any other waits until the first slot in which answerMs or the whole fetch is over, the payload is verified, one more chunk is held or a BUSY later than the request is in force; a BUSY then comes before all else and is one sleep more, a chunk means a wait of batchMs for the rest of the batch under the same conditions, and anything else is silence and takes no further time |
| FetchSafety.PullKeeps | clients/node/index.js:404-441 | whatever is heard during it, a pull keeps the manifest, the reassembly invariant and the pid asked for; without BUSY, progress means more chunks than before and silence exactly as many |
| ClientFetch.Verdict | clients/node/index.js:400-402 | it passes only a client that is neither gone nor complete, and then touches nothing; gone, verified and failed are told apart in that order; the partial survives a CRC error, which honest devices never cause, and no other end |
| ClientFetch.Wait | clients/node/index.js:408-432 | a wait ends in the first slot in which its condition holds or its deadline has passed, with the client as the slots until then make it |
| FetchSafety.HearingKeeps | clients/node/index.js:408-432 | and what is heard between two moments of a fetch keeps its invariant; while the announcement stays the same no chunk is lost |
| ClientFetch.Resume | clients/node/index.js:368-379 | a partial of this crc, count and length is used: the client then has its bytes, and all chunks it held and every claim below the count, and nothing else of it changes; any other partial leaves the client as it was and is discarded. With a backed store the reassembly invariant survives exactly when the partial fits what has arrived: there is none, or it has the bytes of every chunk it does not claim |
| ClientFetch.AwaitManifest | clients/node/index.js:361-366 | requests go out at once and then in the first slot 20 s or more after the last, while no more than timeoutMs has passed; it ends with the first slot after which there is a manifest, or, past the timeout, when the next request would be due, with the client as the slots until then make it |
| FetchSafety.WaitingKeeps | clients/node/index.js:361-366 | while it waits, honest devices keep the reassembly invariant, and the client is on the pid asked for if nothing else is announced |
| ClientFetch.Fetch | clients/node/index.js:320-449 | the whole fetch on any air. It returns without a manifest if and only if none was heard, and then more than timeoutMs has passed. Otherwise the chunk loop starts, at the first slot after which there is one, from the client that has heard all slots before and resumed the partial as Resume says, ends as FetchTurns.Ends says, and leaves exactly the files that FetchTurns.StoreAtEnd gives. On a lossless air from there it returns the payload after exactly the pulls that this client needs; on a steady one it makes at most twelve pulls per missing chunk. It returns only what passes the checksum. With honest devices and a store that is backed and fits what arrived before it was loaded, it returns the payload of the pid it ended on or an error that is not CRC, and, where checksum and length tell the payloads apart, leaves the store backed for the next fetch; when only the pid asked for is announced, that is the pid |
| FetchSafety.SavedIsBacked | clients/node/index.js:433-435 | what an honest transfer writes down is backed for every payload that its identity matches |
| PartialStore.PartialStore.SavePartial | clients/node/lib/store.js:38-47 | both files hold what was given; on the way there, where a crash can stop, are exactly the new buffer beside the old sidecar and then both |
| PartialStore.PartialStore.LoadPartial | clients/node/lib/store.js:49-58 | a partial is returned exactly when both files exist and the buffer has the recorded length |
| PartialStore.PartialStore.ClearPartial | clients/node/lib/store.js:60-65 | neither file is left; on the way there is exactly the old sidecar without a buffer |
| Resume.ResumeSurvivesCrashes | clients/node/lib/store.js:32-58 | after any careful history of fetches, frames before and after the load, saves, clears and crashes, also between the two writes of a save, what loads is nothing or a partial whose every claim has the payload's bytes, and the next fetch starts from it with the reassembly invariant and every claim; careful excludes only what the two lemmas below show to be harmful |
| Resume.StepSafe | clients/node/lib/store.js:38-65 | each single step keeps that |
| Resume.BeginResumes | clients/node/index.js:374-379 | the step by which a history loads the partial leaves client and files as ClientFetch.Resume does, also where the partial is of another payload and is discarded |
| Resume.DyingInClearIsSafeIff | clients/node/lib/store.js:60-65 | after a crash between the two deletes, every further careful history loads nothing or a backed partial if and only if there was no sidecar or zeros back all its claims |
| Resume.BeginIsSafeIff | clients/node/index.js:374-379 | when chunks arrive between the manifest and the load, the seed keeps the reassembly invariant exactly when the partial claims each of them or has its bytes |
| Resume.HalfClearedPoisonsResume | clients/node/lib/store.js:60-65 | a history after which every further fetch starts complete and wrong, for ever |
| CommandQueue.CommandQueue.Enqueue | clients/node/lib/queue.js:29-49 | a request whose key is pending or in flight is not added; any other gets the next identifier, and the state makes the specified step |
| CommandQueue.CommandQueue.OnReply | clients/node/lib/queue.js:51-60 | a matching reply settles the command in flight and no other; all else is ignored |
| CommandQueue.CommandQueue.Pump | clients/node/lib/queue.js:62-83 | the specified step up to the first await |
| CommandQueue.CommandQueue.SendSettled | clients/node/lib/queue.js:80-97 | the specified step after it, for a send that succeeded or failed |
| CommandQueue.CommandQueue.ReplyTimerFired | clients/node/lib/queue.js:97-102 | the specified step of a reply timer: back to the front with one retry less, or, with none left, rejected as FailureRejects says |
| CommandQueue.CommandQueue.PumpTimerFired | clients/node/lib/queue.js:70-72 | the specified step of the pump timer |
| QueueSafety.SortIsStable | clients/node/lib/queue.js:46 | the pending list is sorted by falling priority, is a permutation, and keeps the order of equal priorities |
| QueueSafety.QueueConservation | clients/node/lib/queue.js:29-103 | over every run in which replies wait for the send: each command is in exactly one of pending, in flight and settled, settled at most once; no two live commands share a key; one send or reply timer at most is outstanding; while one is in flight the list is in falling priority |
| QueueEarly.SettledOnceIff | clients/node/lib/queue.js:51-102 | after a matching reply, every continuation leaves the command in exactly one place, settled, its promise ignoring what comes after the first resolve or reject, if and only if its own send had returned, or it has no retry left, or it needs no reply; the same holds of the continuations without a further early reply |
| QueueEarly.RunFinished | clients/node/lib/queue.js:62-103 | the invariant behind the one half: over every run, a command that is settled and whose outstanding send or timer cannot bring it back stays so and is not transmitted |
| QueueEarly.EarlyReplyRepeatsIff | clients/node/lib/queue.js:77-102 | in every reachable state with a command in flight: after a matching reply some later run transmits that command again if and only if its send had not returned, it had a retry left and was waiting for a reply |
| QueueOverlap.OverlapIff | clients/node/lib/queue.js:4-8 | in every reachable state with a command in flight: after a matching reply some continuation without a further early reply has two commands outstanding, and some loses a command, which is then not pending, not in flight and not settled, if and only if the send had not returned; and with no further call, if and only if another command was pending as well |
| QueueOverlap.FailureLoses | clients/node/lib/queue.js:81-84 | the late failure of the settled command's send ends the flight of the command after it, which is then nowhere |
| QueueSafety.EarlyReplyRepeatsCommand | clients/node/lib/queue.js:77-102 | an instance: one settled command, two transmissions |
| QueueSends.SendGuarantees | clients/node/lib/queue.js:62-103 | in every interleaving: at most 1 + retries transmissions of a command, consecutive ones at least minSpacingMs apart, never two pump timers, and exactly one while commands wait with nothing in flight |
| QueueSends.UnsafeIsSentOnce | clients/node/index.js:114-123 | a verb that must not be repeated is transmitted at most once whatever comes before and after, any other at most twice |
| QueueSends.RejectedOnlyWhenSpent | clients/node/lib/queue.js:97-102 | unless one of its own sends fails, a command is rejected only after all its transmissions, in every interleaving and whatever becomes of other commands |
| QueueEndings.EndsAsItHappened | clients/node/lib/queue.js:51-102 | over every run, in every interleaving: the endings recorded for a command are, in order, Resolved for each matching reply while it is in flight and each return of its send if it needs no reply, Rejected for each failure of its send and each timeout with no retry left, and no other |
| QueueEndings.ResolvedOnlyIfAnswered | clients/node/lib/queue.js:51-60 | a promise that resolved was answered: the event is exhibited |
| QueueEndings.FailureRejects | clients/node/lib/queue.js:81-102 | a failed send and a timeout with no retry left record Rejected at that event; a timeout with one left records nothing |
| QueueOrder.CommandsAreCalls | clients/node/lib/queue.js:29-49 | over every run: a command is added for each call whose key is neither pending nor in flight and for no other, and everything pending, in flight, being sent or waited for has the text, key, priority and options of its call |
| QueueOrder.NothingWaitsInVain | clients/node/lib/queue.js:62-83 | each step transmits one command or none, at least minSpacingMs after the last; and it leaves the list and the flight alone or ends with something in flight, nothing pending, or too early after the last transmission |
| QueueOrder.SendsInOrder | clients/node/lib/queue.js:29-103 | over every run in which replies wait for the send: what is transmitted is a retransmission or is ahead of everything pending, by priority and then by the order of the calls |
| AirTime.AirTime.constructor | src/MeshtasticTransport.h:283-286 | all buckets and counters are zero |
| AirTime.AirTime.RotateRing | src/MeshtasticTransport.cpp:177-186 | in place, the buckets of all slots passed over are zeroed and no other |
| AirTime.AirTime.AirRotate | src/MeshtasticTransport.cpp:173-200 | both rings are brought to the slot of the clock |
| AirTime.AirTime.AirLog | src/MeshtasticTransport.cpp:202-220 | the arrays make the specified step, 32-bit overflow included |
| AirTime.AirTime.ChannelUtilizationPercent | src/MeshtasticTransport.cpp:222-228 | 100 times the 32-bit bucket sum by 60000 ms, at most 100, with the buckets as they stand |
| AirTime.AirTime.UtilizationTxPercent | src/MeshtasticTransport.cpp:230-236 | 100 times the 32-bit bucket sum by 3600000 ms, at most 100, with the buckets as they stand |
| AirTime.AirTime.GetTxDelayMsec | src/MeshtasticTransport.cpp:238-249 | the random number modulo 8 * 2^min(5, bucket sum / 12000), in slots, on a 32-bit word |
| AirSafety.RingsRefineLog | src/MeshtasticTransport.cpp:173-220 | after any airLog calls at any clock values, each bucket holds exactly the airtime booked in its slot since the clock last went back, however many slots were skipped |
| AirSafety.ReadersReadWindows | src/MeshtasticTransport.cpp:202-236 | the bucket sums are all airtime of the last 6 slots, and all transmit airtime of the last 60, as of the last airLog; on a clock that does not wrap nothing is left out |
| AirSafety.NothingForgotten | src/MeshtasticTransport.cpp:173-200 | on such a clock the rings stand for the whole log |
| AirSafety.ReadersLagBehind | src/MeshtasticTransport.cpp:222-236 | read at any later moment, the sum of either ring is the true window of that moment and all that has expired since the last airLog, in 32 bits |
| AirSafety.ReadersAreTrueIff | src/MeshtasticTransport.cpp:222-236 | the capped percentage of either reader is that of the moment exactly when the two sums agree or both reach the cap; below 2^32 ms, exactly when nothing has expired or the true window reaches the cap |
| AirSafety.QuietRadioStaysBusy | src/MeshtasticTransport.cpp:222-228 | one frame and a quiet hour: the reader still reports the frame |
| AirSafety.CountersAreTotals | src/MeshtasticTransport.cpp:206-219 | the counters are the totals of their kinds modulo 2^32, and rxAll - rxValid is exactly the airtime of frames that did not decode, across overflows |
| AirSafety.ExponentFromAirtime | src/MeshtasticTransport.cpp:245-247 | the contention exponent is 3 plus one for every full 12 s of airtime in the minute, 8 at most |
| AirSafety.DelayIsSlots | src/MeshtasticTransport.cpp:238-249 | a delay is a whole number of slots, at most 255, at most 7 on a channel with less than 12 s of airtime |
| AirSafety.DelayIsDrawn | src/MeshtasticTransport.cpp:238-249 | through the percentage and the mapping onto 3..8: the delay is the draw modulo 8, 16, 32, 64, 128 or 256 slots, by full 12 s of airtime in the minute |
| Word32.SignedIsDifference | src/MeshtasticTransport.cpp:299-319 | the signed 32-bit difference of two clock readings is the true one, across wraps, exactly when the moments are less than 2^31 ms apart |
| TxSafety.QueueIsFifo | src/MeshtasticTransport.cpp:140-333 | over every run of send, resend, schedule, service, sleep and wake: the frames that left, then those queued, are the accepted ones in order; accepted = transmitted + dropped + queued; a state that is not idle has a frame to work on |
| TxSafety.StreakIsTail | src/MeshtasticTransport.h:153-158 | the fail streak is the number of frames lost in a row since the last that went out |
| TxScans.DeferralsAreBusyScans | src/MeshtasticTransport.cpp:426-436 | over every run: csmaDeferrals is the number of service() passes that found a scan outstanding and a preamble reported; the head frame has as many attempts as there were since the last frame left, and no other frame has any |
| TxScans.BusyScanDefers | src/MeshtasticTransport.cpp:426-436 | after such a pass the same frame is the head, with one attempt more and due when the newly drawn delay is over, and nothing is on air or has left; only a delay of zero, or of more than 2^31 ms, lets the same pass scan or start again |
| TxScans.OnAirOnlyAfter | src/MeshtasticTransport.cpp:289-333 | over every run: a frame goes on air only when the outstanding scan has just been reported done and not detected, or has been outstanding for more than 200 ms without a report, or the frame is due and a scan cannot be started or it has met eight busy ones; and in each of these cases it does, if the radio takes it |
| TxScans.ScanOnlyWhenDue | src/MeshtasticTransport.cpp:299-316 | a scan is begun only for a head that is due and has met fewer than eight busy ones, and then it is begun if the radio can |
| TxScans.LeavesOnlyWhen | src/MeshtasticTransport.cpp:318-330 | a frame leaves as sent exactly when TX-done is reported while it is on air, as unfinished exactly after more than 5000 ms on air without, and as not started only where the radio refuses it |
| TxScans.SendQueues | src/MeshtasticTransport.cpp:140-156 | after any run, send queues a frame of 1..253 bytes behind all others, due after the one-shot delay set since a frame was last queued or else after the drawn one, exactly when fewer than sixteen wait; else nothing changes |
| TxScans.ResendQueues | src/MeshtasticTransport.cpp:507-514 | and resend does the same for the frame kept |
| TxSafety.ResendMayRepeatOlder | src/MeshtasticTransport.cpp:507-514 | an input on which it is not the frame built last |
| TxResend.ResendRepeatsLastPut | src/MeshtasticTransport.cpp:507-514 | after any run, what resend queues, if there is room, is the frame that was built or put on air last, whichever was later |
| TxResend.RepeatsLastBuiltIff | src/MeshtasticTransport.cpp:129-134 | it is the last built frame exactly when none was started since or the last one started since carries the same bytes |
| TxResend.RepeatsLastStartedIff | src/MeshtasticTransport.h:108-113 | it is the last transmitted frame exactly when none was built since or the last one built since carries the same bytes |
| TxResend.ResendMayRepeatUnsent | src/MeshtasticTransport.h:108-113 | an input on which it is a frame that has never been on air |
| TxTiming.HeadLeavesInTime | src/MeshtasticTransport.cpp:258-333 | without wake and with service() every g ms, a due, untried head frame is gone within 8 (2g + 200 + 255 slot) + 2g + 5000 ms and 8 busy scans, whatever the radio answers, lost interrupts and a clock wrap included |
| TxTiming.ServiceTracked | src/MeshtasticTransport.cpp:413-447 | each service() keeps the head frame's deadline, in every state, and counts its deferrals |
| TxWake.HeadLeavesDespiteWakes | src/MeshtasticTransport.cpp:535-538 | with w calls of wake() in the run, a due, untried head is gone within w + 1 times that bound, still after 8 busy scans at most |
| TxWake.WakesDeferForever | src/MeshtasticTransport.cpp:535-538 | and with as many as it takes there is none: for every state with an untried head and every B, a run with service() on time keeps the head queued for longer than B ms |
| TxTiming.HeldBackIff | src/MeshtasticTransport.cpp:299-301 | for any two clock values whatsoever, a waiting frame is held back exactly when the time since it was due lies in the upper half of the 32-bit range |
| TxTiming.OverdueLooksEarly | src/MeshtasticTransport.cpp:299-301 | a frame that has been due for 2^31 ms or more waits |
| TxTiming.FarAheadLooksDue | src/MeshtasticTransport.cpp:299-301 | a frame that is due in more than 2^31 ms does not |
| TxSchedule.NeverEarly | src/MeshtasticTransport.cpp:140-156 | over every run on a clock that does not run backwards, with delays up to 2^31 ms: the k-th frame to leave does so no earlier than the k-th accepted one was due, the one-shot delay being used up by the next accepted frame only; and a frame being scanned for or on air was started no earlier than due |
| TxSchedule.NeverEarlyIff | src/MeshtasticTransport.h:128 | with delays up to d, no run sends a frame early if and only if d is at most 2^31 |
| TxSchedule.HastyIsEarly | src/MeshtasticTransport.h:128 | for every longer delay, a run in which the frame goes on air in the instant it is sent |
| TxLatency.EveryFrameInTime | src/MeshtasticTransport.cpp:140-333 | for every frame of every run from the start without wake, with service() every g ms, a clock that does not run backwards and delays up to l with l + 16 bounds + g below 2^31: it leaves no earlier than it and all accepted before it are due and no later than 16 bounds after that, and one that is still queued has that time left |
| TxLatency.RunEnds | src/MeshtasticTransport.cpp:140-333 | the same from any state on course, by goals that are fixed when a frame is accepted |
| Transport.MirrorAdd | src/MeshtasticTransport.cpp:149-154 | writing behind the last item of the ring appends to the queue and touches no slot in use |
| Transport.MirrorDrop | src/MeshtasticTransport.cpp:423-425 | moving the head on removes the first item and no other |
| Transport.MirrorHead | src/MeshtasticTransport.cpp:432-434 | rewriting the head slot changes the first item and no other |
| Transport.MeshtasticTransport.constructor | src/MeshtasticTransport.h:243-258 | an empty, idle queue |
| Transport.MeshtasticTransport.ScheduleNextTxIn | src/MeshtasticTransport.h:128 | the next frame, and only it, takes the given delay |
| Transport.MeshtasticTransport.EnqueueFrame | src/MeshtasticTransport.cpp:140-156 | refused exactly when empty, too long or the ring is full; otherwise appended, with the head and all slots in use untouched, also the one being scanned or sent |
| Transport.MeshtasticTransport.Send | src/MeshtasticTransport.cpp:128-135 | a finished frame is queued or refused, and only a queued one becomes the frame last built |
| Transport.MeshtasticTransport.Resend | src/MeshtasticTransport.cpp:507-514 | the frame kept is queued again, unless there is none or no room |
| Transport.MeshtasticTransport.DropHead | src/MeshtasticTransport.cpp:423-426 | exactly the head frame leaves the ring, counted as sent or as dropped |
| Transport.MeshtasticTransport.StartSending | src/MeshtasticTransport.cpp:258-285 | the head frame goes on air, or leaves as dropped |
| Transport.MeshtasticTransport.Defer | src/MeshtasticTransport.cpp:431-436 | the head frame stays with one attempt more and a new time |
| Transport.MeshtasticTransport.OnInterrupt | src/MeshtasticTransport.cpp:418-444 | TX-done, a busy scan and a clear one make the steps that LeavesOnlyWhen, BusyScanDefers and OnAirOnlyAfter describe, for every combination of state and flags |
| Transport.MeshtasticTransport.DriveTx | src/MeshtasticTransport.cpp:289-333 | the specified step, in 32-bit clock arithmetic |
| Transport.MeshtasticTransport.Service | src/MeshtasticTransport.cpp:413-447 | one interrupt at most, then the state machine: the pass that the lemmas of TxScans describe |
| Transport.MeshtasticTransport.Wake | src/MeshtasticTransport.cpp:535-538 | the state machine restarts and the queue is untouched |
| RxSide.RxSide.IsDuplicate | src/MeshtasticTransport.cpp:449-458 | true exactly for a key in the ring; any other replaces the oldest |
| RxSide.RxSide.PushRx | src/MeshtasticTransport.cpp:335-343 | a packet is appended, or refused exactly when four wait |
| RxSide.RxSide.HandleRxDone | src/MeshtasticTransport.cpp:371-406 | the step that DeliversExactly describes, on the dedupe ring and the packet ring |
| RxSide.RxSide.Poll | src/MeshtasticTransport.cpp:460-470 | the oldest waiting packet, if there is one |
| RxSafety.DedupeWindow | src/MeshtasticTransport.cpp:449-458 | over any arrivals, a key counts as duplicate exactly when it is among the last eight accepted, eight zeros standing before the first |
| RxSafety.NineAreDistinct | src/MeshtasticTransport.cpp:449-458 | any nine consecutive accepted keys are pairwise distinct |
| RxSafety.PacketsAreFifo | src/MeshtasticTransport.cpp:335-343 | what was polled, then what waits, is what found room, in order; four at most wait |
| RxSafety.DeliveredIsForUs | src/MeshtasticTransport.cpp:371-379 | every packet delivered is on our channel, from another node, and to us or to all |
| RxDelivery.DeliversExactly | src/MeshtasticTransport.cpp:371-406 | over every run: an arrival is taken if and only if its channel is ours, its sender is not, it is addressed to us or to all, its payload decoded, and (from, id) is not that of one of the last eight taken, nor (0, 0) while fewer than eight have been; it is then appended to the packets waiting if and only if fewer than four do, and nothing else waits |
| RxRepeats.RepeatsAreApart | src/MeshtasticTransport.cpp:335-343 | over any run: two deliveries with one key are at least nine apart, counting the packets dropped in between |
| RxRepeats.NineWithoutDropAreDistinct | src/MeshtasticTransport.cpp:335-343 | so nine consecutive deliveries with no drop among them are distinct, whatever was dropped before or after |
| RxRepeats.AnyPatternAdmitsRepeat | src/MeshtasticTransport.cpp:335-343 | whatever pattern of eight or more packets kept and dropped comes after a packet, there is a run in which the packet is then delivered again |
| RxRepeats.RepeatIff | src/MeshtasticTransport.cpp:335-343 | a repeat m places later with d drops in between is possible if and only if m + d is nine or more |
| RxRepeats.RetryIsAcceptedIff | src/MeshtasticTransport.cpp:449-458 | a retransmission is accepted exactly when eight packets have been accepted since and it is not among the last eight |
| RxSafety.DroppedIsNotRetried | src/MeshtasticTransport.cpp:391-406 | a packet that meets a full queue is lost, and its retransmission is refused however much has been polled since |
| RxSafety.DeliveryMayRepeatSooner | src/MeshtasticTransport.cpp:335-343 | nine arrivals and one poll after which a packet is delivered twice with three in between |

## Left out

- ClientPush.Push: the write-through `.part` file, progress callbacks, the abort signal and the `pushStat` adoption before the loop are not modelled; the loop starts with a fresh receiver. The command that carries each frame is I/O; that the frame means the right thing is PushModel.SentFramesDecode.
- ClientFetch.FetchChunks: how long a sleep lasts is not modelled, only that the clock then reads later and what arrived meanwhile; that a BUSY is waited out to its end is therefore not claimed, only that it is remembered (PullSafety.RemembersLastBusy) and obeyed for one sleep (FetchWaits.PullWaits). Clock readings between two sleeps are equal. Awaiting the send of a manifest request counts as one sleep.
- PartialStore.PartialStore.SavePartial: a write is atomic; torn writes, a sidecar that is not JSON and the order of the identifiers in it are not modelled. One pair of files stands for one node and pid. `save` and `prune` are left out.
- Resume.ResumeSurvivesCrashes: excludes a crash between the two deletes of a clear where zeros do not back the sidecar, and a chunk before the load that disagrees with the partial; on both it fails, and DyingInClearIsSafeIff and BeginIsSafeIff say exactly when. The payload behind the pid does not change in such a history.
- ClientFetch.Fetch: excludes a partial that disagrees with a chunk that arrived before it was loaded, on which it fails; ClientFetch.Resume says exactly when. The store is backed for a next fetch only where checksum, length and count tell the payloads apart, which is all the program compares.
- QueueSafety.QueueConservation: excludes a reply that overtakes its own send, on which it fails; QueueSends holds for those runs too, QueueEarly says exactly what becomes of the command, and QueueOverlap of the others.
- CommandQueue.CommandQueue.SendSettled: the event loop is outside the class; what it still owes the queue, and the history of sends and settlements, are ghost fields. Every call of resolve and reject is recorded; the first one for a command settles its promise. Which reply matches is a parameter.
- TxTiming.HeadLeavesInTime: all clock readings within one service() are one instant. A frame that has been tried before has fewer attempts left and is covered by ServiceTracked; runs with wake() are the subject of TxWake.
- QueueSends.RejectedOnlyWhenSpent: excludes a failed send of the command itself, which rejects it at once.
- Transport.MeshtasticTransport.Send: the protobuf encoding, the encryption, the packet id and the header are outside; the finished frame is the parameter. The hop override and `forceTxFailStreak` are left out.
- Transport.MeshtasticTransport.StartSending: the call of `airLog` on a started transmission is not tied in, nor the receive-armed flag and `rxDroppedByTx`; the RadioLib calls are answers that may be anything.
- RxSide.RxSide.HandleRxDone: that service() reaches it only when no transmit or scan flag is served is not tied in; it starts from a frame off the radio whose payload decrypted and decoded or did not; length checks, airtime, RSSI, SNR and the other packet fields are outside.
- AirTime.AirTime.ChannelUtilizationPercent: percentages are real numbers; float rounding is not modelled.
- AirTime.AirTime.GetTxDelayMsec: the random draw is a parameter; a transport without a random source draws zero.
- The push engine in the firmware is not part of this repository; an honest device is a predicate on the frames that arrive.
- The pull server in the firmware is not part of this repository either; the frames and answers are those of the repository's own fake server.
- CRC-32 and AES-CTR are library calls; the one is uninterpreted, the other not modelled.
- Encoder arguments out of range of their field throw in the program; here the types exclude them.
- Statistics, diagnostics and progress counters that no decision reads.
- Text commands, HTTP, WebSocket and JSON; `receive`, `sendAck` and `begin`, which add a loop or a call around what is here.
