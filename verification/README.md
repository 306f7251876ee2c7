# A verified model of freeswitch-webrtc-bench

This project models, in Dafny, the four parts of the benchmark whose correctness is hardest to see
from the code, and proves what they are for on every run and every input.

**The calling side.** `main.go`'s `uac` hands calls to user agents over one start channel each and
takes reports back over one shared channel; every agent (`sip/ua.go`) is an event loop over a
session, a media run, a duration timer and a report that a detached goroutine sends up to five
seconds later.

- `UserAgent` is one agent in either role as a transition system: one `Event` for every case of the
  select loop, for the state callbacks of the SIP library, and for the media runs and reporters the
  loop has spawned. `UserAgentLoop` has the same cases as methods on the loop's variables, each of
  which keeps the invariant; its `Drive` takes the object through any run of events, and its states
  are those of the run. `AgentRuns` has what holds on every run of an agent,
  `AgentReports` what its reports say of its calls and when its timer hangs up, and `AgentFaults` what
  the code does not guarantee.
- `Scheduler` and `Dispatcher` are the dispatcher: its bookkeeping as functions, and its drain loop
  and cyclic search as methods on an array.
- `CallSlots` puts dispatcher, agents and channels together; `CallRuns` has the theorems about every
  run, and `LateCallback` what a delayed report says in the end. `MediaFlow` is the way through
  `MediaFunc`, of which an agent sees three phases. Library, media and timers are the environment: callbacks may come for any session, in any
  order, any number of times, and cancellation may come at any moment.

**The H.264 path.** `AnnexB` is the byte stream format of Annex B of ITU-T H.264 and the byte machine
that cuts it; `AdjacentCodes` tells from the bytes where it finds an empty unit; `NalReader` is what `NextNAL` returns as a function of the bytes; `H264Reader` is the
buffered reader with its fields. `StapA`, `Ingester`, `Pacing` and `H264Writer` are the aggregation
packets of section 5.7.1 of RFC 6184, the grouping of NAL units into samples, the wall clock that
paces them, and the key-frame-gated writer with the depacketizer vendored from pion/rtp; `Payloader` is the payloader
from there, with fragmentation units. `Loopback`
joins them on NAL units, `Recording` on the bytes of a file.

**Range patterns and profiles.** `Text` and `Decimal` are the few functions of Go's `strings`,
`strconv` and `fmt` that are needed. `RangePattern` is `parseRangePattern`, `PatternLaws` what its
patterns mean, `PatternFaults` which texts are refused and how, `CallProfile` the checks, defaults and clamps of `ParseCallProfile`.

**Session descriptions.** `SdpText` has the item editing of `rtc/util.go` on arbitrary text and its
get/put laws, `SdpLines` shows that on a description made of lines (section 5 of RFC 8866) the
text searches edit lines, `SdpRemoval` does the same for the removal of a line, and `MediaSdp` is
the relay rewrite and the audio removal of `rtc/media.go`.

Where the source works step by step, so does the model: classes with the source's fields, methods
with its loops, each proved equal to a function whose laws are then proved as lemmas.

## What turned out not to hold

Each of these is stated with the exact condition, proved in both directions, and shown of an input
or a run.

- The delayed report may not say how the call ended: it carries what the last state callback before it
  is sent says, and is right exactly when there was none since the end of the call or the last one
  agrees (`LateCallback.SentReportIsRightExactly`). On some run a call that ended successfully is
  reported failed (`LateCallback.ReportCanChangeWhileWaiting`). Its index, account and Call-ID are safe.
- A called agent blocks for good in its next call exactly when an answer of the call before is left in
  its channel (`AgentFaults.CalleeGetsStuckExactlyAfterLeftover`), and that state is reachable
  (`AgentFaults.LeftoverAnswerReachable`).
- A confirmation handled while there is no session, after the end of a call or between a start message
  and Invite, arms a duration timer without a call (`AgentFaults.StrayTimerExactly`), and on some run it hangs up a second call that was never confirmed
  (`AgentFaults.SecondCallHungUpUnconfirmed`).
- `NextNAL` panics exactly when the stream begins with a start code and two start codes touch
  (`NalReader.PanicsExactlyWhereCodesTouch`). The byte behind a short first start code is not counted,
  so 00 00 01 00 00 01 65 is one unit and no panic.
- A stream read to its end leaves the zero counter above the zeros in the buffer exactly when it
  begins with a start code, no start codes touch, and it ends in a zero byte that is not among its
  first four (`NalReader.StaleAtEndExactly`).
- A frame longer than 65535 bytes does not survive a STAP-A packet
  (`StapA.UnpackReturnsFramesExactly`); of slices, exactly delimiters, filler and those of two bytes or
  less do not survive payloader and depacketizer (`Loopback.LoopbackExactly`).
- A cancelled run of `Ingest` sends a beginning of what it would have sent (`Ingester.FeedIsCutFrom`),
  except that between the parameter sets and their slice it still sends the parameter sets, with the
  duration of a slice (`Ingester.CutBehindParams`).
- The range 0 to 2^63-1 expands to nothing, because its size wraps around; every other written pattern
  gives the accounts it stands for (`PatternLaws.PatternRoundTrip`, `PatternLaws.WidestPatternIsEmpty`).
- The profile's comments ask for lists of the same length; the code accepts longer ones. The model
  follows the code (`CallProfile.ParsesExactlyAccepted`).
- Without a candidate line the relay rewrite erases address and port
  (`MediaSdp.RelayErasesExactly`), and one audio removal leaves a second audio section that follows
  the video (`MediaSdp.AudioLeftExactly`).

## Model

| member | source | states |
|---|---|---|
| AgentRuns.MediaRunDiscipline | sip/ua.go:193-256 | in both roles, on every run: at most one media run is alive, its end notification always finds room, what a join finds is the notification of the current run, and a calling agent's run finds room for its offer |
| AgentRuns.OfferIsOfCurrentRun | sip/ua.go:258-265 | on every run of a calling agent the offer it invites with was sent by its current media run, which it has not given up, and it has no session yet |
| AgentRuns.JoinsAreOfDistinctRuns | sip/ua.go:208-211 | the runs whose end notifications are joined over an agent's life strictly increase: none is joined twice, none is mistaken for another |
| AgentRuns.SessionEndsExactlyByItsTermination | sip/ua.go:344-355 | on every run the current session is given up if and only if that session's termination is handled; terminations of other sessions change nothing |
| AgentReports.CallIdIsOfSession | sip/ua.go:258-275 | on every run, in either role, the report of an agent with a session carries that session's Call-ID |
| AgentReports.ReportTellsTheCall | sip/ua.go:231-342 | from the step that takes a call on, in either role: index and account of the call, and exactly the Call-ID and the result that the events since then told |
| AgentReports.TerminationIsReported | sip/ua.go:344-390 | when the media run of a terminated session is joined exactly one report is handed on, with that session's Call-ID, the index of its call and the account |
| AgentReports.CalleeReportsExactly | sip/ua.go:299-319 | a called agent reports exactly the calls it refuses, as failed and with the index and Call-ID they came with, and the ends of its own |
| AgentReports.TimerChangesExactly | sip/ua.go:277-288 | on every run the timer is armed if and only if a confirmation comes with a duration set and no timer, and disarmed if and only if it fires or an ended call is joined |
| AgentReports.HangupChangesExactly | sip/ua.go:377-400 | hangupByMe is set if and only if the timer fires during a session, cleared if and only if a reporter has waited |
| AgentReports.HangupOnlyByTimer | sip/ua.go:397-400 | without a firing timer it is never set |
| UserAgent.StepKeepsInv | sip/ua.go:198-405 | every event in every order keeps the agreement of session, contexts, cancel functions, runs and channels |
| AgentFaults.CallerNeverStuck | sip/ua.go:355-358 | a calling agent never waits for the end of a run that waits for the agent |
| AgentFaults.LeftoverAnswerReachable | sip/ua.go:365-368 | a called agent can be idle with the answer of the call before still in sdpFromMediaChan |
| AgentFaults.CalleeGetsStuckExactlyAfterLeftover | sip/ua.go:344-369 | from an idle called agent, the next call can block for good, other calls being refused meanwhile or not, if and only if such an answer is left |
| AgentFaults.StuckStaysStuck | sip/ua.go:356-358 | once blocked that way only state callbacks still happen and the agent stays blocked |
| AgentFaults.StrayTimerExactly | sip/ua.go:277-288 | in either role a step leaves a duration timer without a session if and only if it handles a confirmation with a duration set, no session and no timer |
| AgentFaults.StrayTimerReachable | sip/ua.go:277-288 | a run of either role that ends a confirmed call and then handles its second confirmation gets there |
| AgentFaults.StrayTimerHangsUpNextCall | sip/ua.go:397-408 | from such a state the next call can be hung up by the timer without any confirmation |
| AgentFaults.SecondCallHungUpUnconfirmed | sip/ua.go:397-408 | so some run from the start, in either role, hangs up a second call that was never confirmed |
| UserAgentLoop.AgentLoop.constructor | sip/ua.go:190-196 | the loop's variables at the start, in an invariant state |
| UserAgentLoop.AgentLoop.OnRegister | sip/ua.go:102-109 | registration: the loop is entered or the agent gives up |
| UserAgentLoop.AgentLoop.OnCancel | sip/ua.go:201-228 | cancellation: leave at once without a media run, else join it first |
| UserAgentLoop.AgentLoop.OnStartCall | sip/ua.go:231-256 | start message: refused unless session, context and cancel function are all clear, else the call's report fields and a new run |
| UserAgentLoop.AgentLoop.OnLocalSdp | sip/ua.go:258-275 | local description taken; for a caller the session becomes what Invite returned and its Call-ID goes into the report |
| UserAgentLoop.AgentLoop.OnConfirmed | sip/ua.go:277-288 | timer armed unless none is wanted or one exists |
| UserAgentLoop.AgentLoop.OnReceived | sip/ua.go:290-342 | incoming call: taken when idle, ignored when it is the same session or Call-ID, otherwise refused with a failed report |
| UserAgentLoop.AgentLoop.OnTerminated | sip/ua.go:344-369 | termination: ignored for no or another session, else the session is cleared and the run joined |
| UserAgentLoop.AgentLoop.OnJoined | sip/ua.go:355-390 | what follows the join, leaving or at the end of a call |
| UserAgentLoop.AgentLoop.CloseCall | sip/ua.go:363-390 | contexts and timer cleared; a caller's report goes to a detached reporter, a callee's is sent |
| UserAgentLoop.AgentLoop.OnTimer | sip/ua.go:397-408 | duration reached: hangup noted if there is a session, timer cleared |
| UserAgentLoop.AgentLoop.OnSipState | sip/ua.go:164-178 | a terminating callback writes the result whatever the session |
| UserAgentLoop.AgentLoop.ReporterWait | sip/ua.go:377-385 | the reporter's wait clears hangupByMe |
| UserAgentLoop.AgentLoop.ReporterSend | sip/ua.go:386-387 | the report sent is cr as it is at that moment |
| UserAgentLoop.AgentLoop.MediaCommits | rtc/media.go:587-592 | a run has its local description and will send it |
| UserAgentLoop.AgentLoop.MediaSends | rtc/media.go:614-614 | the description goes to the loop, once a run |
| UserAgentLoop.AgentLoop.MediaEnds | rtc/media.go:52-57 | a run is over and its one end notification sent |
| UserAgentLoop.AgentLoop.Handle | sip/ua.go:198-405 | any event at all: the object goes from the state before to the state after, sends the reports of the step and keeps the invariant |
| UserAgentLoop.AgentLoop.Drive | sip/ua.go:198-405 | any run of events takes the object through the states of that run and sends its reports in order |
| UserAgentLoop.Live | sip/ua.go:55-405 | from construction on the object has one media run at most, whose end notification finds room, whatever happens |
| MediaFlow.OneDescriptionOneNotification | rtc/media.go:52-711 | on every way through MediaFunc, whichever errors, cancellations and answers come: at most one local description is sent, and one end notification as the last act |
| MediaFlow.StepIsPhaseStep | rtc/media.go:577-711 | every step of the function that finds room is a step of the agent's media run |
| MediaFlow.PhaseStepIsStep | rtc/media.go:577-711 | every event of a media run is a step of the function somewhere on its way |
| Scheduler.DrainKeepsInv | main.go:140-174 | whatever reports are drained, the counter laws stay |
| Scheduler.DrainFreesReported | main.go:140-174 | reports of distinct busy slots free exactly those slots and count each once |
| Scheduler.DrainWritesInOrder | main.go:140-174 | and are written in the order received, with their account index one higher |
| Scheduler.AccountKeepsInv | main.go:143-167 | a report keeps the counter laws; for a busy slot completed grows by one and stays within started |
| Scheduler.StartKeepsInv | main.go:200-211 | a start on the next idle slot keeps the counter laws |
| Scheduler.DecidesExactly | main.go:178-198 | told from calls and slots: the loop leaves if and only if all calls wanted are written, and starts one if and only if one is wanted and a slot is idle |
| Scheduler.AllCompletedMeansAll | main.go:178-181 | at the exit every started call is completed and accounted for, and every slot is idle |
| Scheduler.SearchFinds | main.go:200-205 | with an idle slot the cyclic search has a first hit within one round |
| Scheduler.PassedOverComesNearer | main.go:200-211 | a start on another slot brings a slot that stays idle nearer to the cursor |
| Dispatcher.Dispatcher.constructor | main.go:114-121 | all slots idle, all counters zero |
| Dispatcher.Dispatcher.AccountOne | main.go:143-167 | one report against the flags and counters, both branches: a busy slot is freed and its result counted |
| Dispatcher.Dispatcher.Drain | main.go:140-174 | the loop takes the report and exactly as many as were queued when it began, in order; what agents send meanwhile stays queued, in order |
| Dispatcher.Dispatcher.TakeReports | main.go:140-174 | a pass accounts for the queue and for what comes during its first receive, and leaves what comes later |
| Dispatcher.Dispatcher.StartNext | main.go:200-211 | the search ends, chooses the first idle slot from the cursor and starts the next index there |
| Dispatcher.Dispatcher.Pass | main.go:135-211 | one pass while agents go on sending: the reports accounted for, what is left queued, then leave, wait or start as the counters say; it leaves only with every call completed and every slot idle |
| CallSlots.StartFindsAgentFree | sip/ua.go:231-236 | a start message always finds its agent without session, context and cancel function |
| CallSlots.ReportFindsSlotBusy | main.go:140-167 | a received report's slot is in a call, and the report's index is the one it holds |
| CallSlots.CarriesAlone | main.go:112-131 | an account's call is in one place only: start channel, media run or a single waiting reporter |
| CallSlots.AgentKeepsInv | sip/ua.go:198-405 | every agent step keeps the global invariant |
| CallSlots.TurnKeepsSysInv | main.go:133-214 | every dispatcher step keeps it |
| CallSlots.StepKeepsSysInv | main.go:133-214 | every step of anyone keeps it |
| CallRuns.TokenConservation | main.go:140-209 | in every reachable state, cancelled or not, a busy account has exactly one call among start channel, agent, waiting reporter, report channel and dispatcher's hand, an idle one none |
| CallRuns.ExactlyOnce | main.go:206-209 | every index from 1 to startedCalls is held once or written once, no other index at all |
| CallRuns.DetailsAreDistinctStartedCalls | main.go:147-155 | no call is written twice, none that was not started |
| CallRuns.NeverBranchesUnreachable | main.go:165-167 | neither of the two branches said never to happen is taken on any run |
| CallRuns.DelayedReportIsSafe | sip/ua.go:375-387 | the report sent late has the index, account and Call-ID the call had when it ended |
| CallRuns.WaitingReportChangesExactlyByLateCallback | sip/ua.go:168-178 | a single step changes cr while a report waits if and only if it is a state callback with a different result |
| LateCallback.CrWhileWaiting | sip/ua.go:375-387 | over any run in which a reporter goes on waiting, cr is what it was with the result of the last callback, if there was one, and the reporter's memory is unchanged |
| LateCallback.SentReportIs | sip/ua.go:375-387 | from the step that ends a call to the send, over any run: the report sent is the one of the end with the last callback's result |
| LateCallback.SentReportIsRightExactly | sip/ua.go:375-387 | it says how the call ended if and only if no callback came in between or the last one agrees |
| LateCallback.TerminatedSessionIsReported | sip/ua.go:344-387 | over any run of the whole system, the report sent for a terminated session carries its Call-ID, the index of its call and its account |
| LateCallback.ReportCanChangeWhileWaiting | sip/ua.go:168-178 | on some run of the whole system a call that had ended successfully is reported failed |
| CallRuns.DispatcherNeverBlocks | main.go:200-208 | a start finds an idle slot and room in its channel, the drain finds every report it has counted |
| CallRuns.ReporterNeverBlocks | sip/ua.go:386-386 | a waiting reporter always finds room in callEndChan, also after the dispatcher has left |
| CallRuns.MediaNeverBlocks | rtc/media.go:52-57 | a calling agent's media run always finds room for its offer and its end notification |
| CallRuns.CountersAreRight | main.go:114-116 | idle slots, calls under way, completed, started and total agree on every run, with equality throughout at the exit; ok, bad and unknown are the numbers of calls written as Successful, Failed and neither |
| CallRuns.CheckLeadsExactly | main.go:178-198 | on every run, from its check the dispatcher leaves and cancels, starts a call, or waits, exactly when calls written, calls started and idle slots say so |
| CallRuns.IdleSlotIsChosenSoon | main.go:200-211 | while a slot stays idle fewer calls than there are slots are started elsewhere |
| AnnexB.ParseIsLossless | rtc/h264reader/h264reader.go:123-181 | for any stream that begins with a start code, the units found and their start codes are the stream |
| AnnexB.ParseOfSerialize | rtc/h264reader/h264reader.go:97-105 | valid units behind any mix of start codes are found again, with those start codes |
| AdjacentCodes.ScanStopsAtFirst | rtc/h264reader/h264reader.go:157-181 | the machine stops behind the first start code that ends in the bytes to come, and cuts that code and no more |
| AdjacentCodes.EmptyUnitExactly | rtc/h264reader/h264reader.go:97-105 | a unit before the last is empty if and only if two start codes touch, told from the bytes: byte 3 behind a short first code begins none |
| NalReader.ReadAllDeliversUnits | rtc/h264reader/h264reader.go:113-155 | repeated NextNAL returns the units of the stream: SEI skipped unless last, stopped by an empty unit, ended by an empty tail |
| NalReader.HeaderFields | rtc/h264reader/h264reader.go:187-192 | the three fields of a NAL put together are its header byte |
| NalReader.NothingWithoutCode | rtc/h264reader/h264reader.go:73-108 | a stream without a start code in front gives nothing, and counts as ended if and only if it is empty or a bare short start code |
| NalReader.SeiSkippedUnlessLast | rtc/h264reader/h264reader.go:135-140 | on bytes: SEI in front of a slice is skipped, SEI at the end returned |
| NalReader.ReaderRoundTrip | rtc/h264reader/h264reader.go:113-155 | writing valid units and reading them gives all but the SEI units that are not last, then end of file |
| NalReader.PanicsExactlyWhereCodesTouch | rtc/h264reader/h264reader.go:187-192 | on any stream at all the reader panics if and only if the stream begins with a start code and two of its start codes touch |
| NalReader.TouchingCodesPanic | rtc/h264reader/h264reader.go:187-192 | such a stream |
| NalReader.CounterStaleExactly | rtc/h264reader/h264reader.go:146-152 | after any call, the first included, the zero counter exceeds the zeros in the buffer if and only if the call has read the last byte, that byte is zero, and it was not read for the first start code |
| NalReader.StaleAtEndExactly | rtc/h264reader/h264reader.go:146-152 | on any stream, reading to the end leaves it so if and only if the stream begins with a start code, no start codes touch, and it ends in a zero behind its first four bytes |
| NalReader.TrailingZeroLeavesStale | rtc/h264reader/h264reader.go:146-152 | such a stream |
| H264Reader.Reader.ReadBytes | rtc/h264reader/h264reader.go:52-71 | as many bytes as asked for or all there are, however the stream cuts them |
| H264Reader.GoodDataIsSeen | rtc/h264reader/h264reader.go:54-60 | the bytes of good chunks are seen in order |
| H264Reader.DataWithErrorIsLost | rtc/h264reader/h264reader.go:55-58 | bytes that come along with an error are not |
| H264Reader.Reader.BitStreamStartsWithH264Prefix | rtc/h264reader/h264reader.go:73-108 | the verdict on the first bytes, and the fourth byte put into the buffer after a short start code |
| H264Reader.Reader.ProcessByte | rtc/h264reader/h264reader.go:157-181 | a unit ends at 1 after two or more zeros; the cut never goes below zero |
| H264Reader.Reader.NextNAL | rtc/h264reader/h264reader.go:113-155 | the buffered reader refines the byte-at-a-time specification, whatever the chunks |
| StapA.PackageAsStapA | rtc/util.go:32-53 | the loop builds header and length-prefixed frames |
| StapA.UnpackReturnsFramesExactly | rtc/util.go:40-44 | taking the packet apart returns the frames if and only if none is longer than 65535 bytes |
| StapA.UnpacksExactly | vendor/github.com/pion/rtp/codecs/h264_packet.go:169-184 | a packet body can be taken apart if and only if it is the body of frames that fit |
| StapA.LongFrameIsLost | rtc/util.go:40-44 | a frame of 65536 bytes is not returned |
| StapA.HeaderParsesBack | rtc/util.go:35-38 | the header byte parses back to type 24 and the first frame's RefIdc |
| H264Writer.KeyFrameByTypes | rtc/h264writer/h264writer.go:77-97 | the word arithmetic is the test of the type of the packet or of its first frame |
| H264Writer.StapAIsKeyFrameExactly | rtc/h264writer/h264writer.go:90-91 | a packed packet is a key frame if and only if its first frame is an SPS |
| H264Writer.SingleUnitIsWritten | rtc/h264writer/h264writer.go:44-64 | any packet of more than two bytes with type 1 to 23, parameter sets included: what it adds to the file and what it does to the gate |
| H264Writer.AggregateIsWritten | rtc/h264writer/h264writer.go:44-64 | any aggregation packet: its frames, or nothing and an error |
| H264Writer.OthersAreNotWritten | rtc/h264writer/h264writer.go:44-64 | packets of two bytes or less and of other types, fragments apart, add nothing |
| H264Writer.Writer.WriteRTP | rtc/h264writer/h264writer.go:44-64 | empty payloads, the gate, depacketizing errors and the bytes written |
| Payloader.EmittedWhole | vendor/github.com/pion/rtp/codecs/h264_packet.go:27-61 | a sample without start codes is one NAL unit to the payloader |
| Payloader.EmittedUnits | vendor/github.com/pion/rtp/codecs/h264_packet.go:27-61 | a sample of valid units behind start codes of either length gives exactly those units |
| Payloader.FragmentsFit | vendor/github.com/pion/rtp/codecs/h264_packet.go:86-145 | every fragment fits a packet, is of type 28, keeps type and importance of the unit, and is flagged as its beginning, its end or neither |
| Payloader.PacketHasNoCode | vendor/github.com/pion/rtp/codecs/h264_packet.go:27-61 | no start code arises in the aggregation packet of two valid units |
| Ingester.ReadBatch | rtc/ingester.go:109-131 | reads up to the first unit that is no parameter set, to the end, or to the end of the context, and remembers the latest SPS and PPS |
| Ingester.Group | rtc/ingester.go:133-144 | the frames of a batch: the packet if both sets were seen, then the units that are no parameter sets |
| Ingester.WriteSamples | rtc/ingester.go:147-168 | one sample a frame, only the last with a duration; a failing write ends the batch with what was written before |
| Ingester.Ingest | rtc/ingester.go:108-175 | for every file, context and track: exactly which samples the track holds in the end and whether the file, the context or a write ended the run |
| Ingester.FeedWhole | rtc/ingester.go:108-175 | without cancellation that is everything the file's units call for |
| Ingester.RunEndsExactly | rtc/ingester.go:108-111 | a run reaches the end of the file if and only if the context outlives one look for every unit, one for every batch and two more; then everything was sent |
| Ingester.FeedIsCutFrom | rtc/ingester.go:108-168 | whenever the context ends, what was sent is a beginning of everything, but for one packet of parameter sets behind it |
| Ingester.CutBehindParams | rtc/ingester.go:111-137 | such a run: the parameter sets are sent alone and carry time |
| Ingester.BatchesPartition | rtc/ingester.go:108-131 | the batches and what is left over are the units, in order |
| Ingester.FeedEmitsBatches | rtc/ingester.go:133-168 | every unit that is no parameter set is emitted once and in order, behind the latest SPS and PPS of its batch exactly when the batch has both |
| Ingester.TimedSamplesAreSlices | rtc/ingester.go:147-152 | the samples that carry time are those units, in order |
| Ingester.TimeIsConserved | rtc/ingester.go:107-152 | all durations together are one sample duration for each such unit |
| Pacing.WallClock.constructor | rtc/util.go:60-62 | nothing sent at the start |
| Pacing.WallClock.Tick | rtc/util.go:64-73 | the pause is the lead over the clock, if that exceeds 30 ms |
| Pacing.PauseCatchesUp | rtc/util.go:68-72 | a pause is asked for if and only if the lead is over 30 ms, and it takes up the whole lead |
| Pacing.ExactSleep | rtc/util.go:64-73 | slept exactly as told, a tick leaves the sender level with the clock or within 30 ms |
| Pacing.NeverFarAhead | rtc/util.go:64-73 | over any run the sender is never more than 30 ms ahead at a tick, and no pause exceeds one tick and 30 ms |
| Loopback.RecordsWhatIsKept | rtc/h264writer/h264writer.go:44-64 | the recording is the kept units behind long start codes |
| Loopback.RecordingReadsBack | rtc/h264reader/h264reader.go:113-155 | reading the recording gives the kept units |
| Loopback.LoopbackExactly | rtc/ingester.go:108-168 | ingester, payloader, writer and reader give the original units if and only if every batch is SPS, PPS and slice, or a slice after such a batch, every slice passes and no parameter set is left over |
| Loopback.WriteFragmented | vendor/github.com/pion/rtp/codecs/h264_packet.go:86-148 | the fragments of a unit larger than a packet, depacketized one after the other, are the unit behind a start code |
| Loopback.WriteSlice | rtc/h264writer/h264writer.go:44-64 | a slice of any size, through payloader and writer, is recorded if and only if a key frame came before, it has more than two bytes and is neither delimiter nor filler |
| Loopback.DelimiterIsLost | vendor/github.com/pion/rtp/codecs/h264_packet.go:76-78 | a delimiter behind its parameter sets is not recorded |
| Loopback.FillerIsLost | vendor/github.com/pion/rtp/codecs/h264_packet.go:76-78 | nor is filler |
| Loopback.ShortSliceIsLost | vendor/github.com/pion/rtp/codecs/h264_packet.go:155-160 | nor is a slice of two bytes |
| Recording.WriteTrackToDisk | rtc/media.go:714-737 | packets written one after the other, errors passed over |
| Recording.Record | rtc/media.go:714-737 | reader, ingester, payloader and writer in a row record what the functions say of the file's bytes |
| Recording.FileLoopbackExactly | rtc/ingester.go:108-168 | from a file's bytes: the recording reads like the file if and only if every batch read from it is whole and no parameter set is left over |
| Recording.RecordsSameBytesExactly | rtc/h264writer/h264writer.go:44-64 | the recording is the file byte for byte if and only if moreover the file has no SEI and only long start codes |
| Decimal.PaddedIsExact | profile/profile.go:250-254 | a padded number has its value and, if it fits, exactly the width |
| Decimal.PaddedOfValue | profile/profile.go:250-254 | writing a digit string's value at its own width restores it |
| RangePattern.ReadRangeOf | profile/profile.go:219-248 | the range of a part: its faults in order, or start, end and their numbers, never negative |
| RangePattern.AppendPlain | profile/profile.go:249-259 | the block once for every repetition |
| RangePattern.AppendSpecial | profile/profile.go:260-273 | every item as often as repeated |
| RangePattern.ReadPart | profile/profile.go:189-274 | one part: what it expands to, or its first fault |
| RangePattern.ParseRangePattern | profile/profile.go:185-275 | the expansions of the parts in order, or the fault of the first faulty part |
| PatternFaults.FirstFaultDecides | profile/profile.go:188-189 | sound parts between commas give their expansions in order; otherwise the first faulty one decides |
| PatternFaults.PiecesOfRange | profile/profile.go:219-234 | of dash-separated pieces one is taken unless empty, three or more are refused |
| PatternFaults.TwoPieces | profile/profile.go:225-248 | two pieces of any text: refused with the first of five faults there is, otherwise a range |
| PatternFaults.DigitRangeExactly | profile/profile.go:235-248 | two digit strings are a range if and only if they are equally long and the same, or in order and not too large |
| PatternFaults.AtoiOfDigits | profile/profile.go:206-208 | digits with or without a sign are read as their value up to the limits of 64 bits |
| PatternFaults.AtoiOfOthers | profile/profile.go:206-208 | any other text is no integer |
| PatternFaults.BraceNotOpened | profile/profile.go:194-201 | a closing brace without an opening one is refused |
| PatternFaults.RepeatMustBeInteger | profile/profile.go:202-208 | so is a repeat count that is no integer |
| PatternFaults.BracketNotOpened | profile/profile.go:209-213 | so is a closing bracket in front of any opening one |
| PatternFaults.BracketNotClosed | profile/profile.go:209-213 | so is an opening bracket that is never closed |
| PatternFaults.RangeInBracketsFaulty | profile/profile.go:214-224 | so is a range in brackets that is empty or has brackets or braces in it |
| PatternFaults.BraceInside | profile/profile.go:222-224 | so is a brace that does not close the part |
| PatternFaults.UnequalLengthRefused | profile/profile.go:235-237 | so is "8-12" |
| PatternLaws.ExpandedItem | profile/profile.go:249-273 | item k shows number k modulo the size, or k divided by the repetitions |
| PatternLaws.ModesArePermutations | profile/profile.go:249-273 | both modes give the same accounts the same number of times |
| PatternLaws.LengthExactly | profile/profile.go:251-267 | the length of a part's expansion is repetitions times range size if and only if the size does not wrap around |
| PatternLaws.WidestRangeIsEmpty | profile/profile.go:251-267 | the pattern of a range from 0 to 2^63-1, in any number of digits, gives nothing |
| PatternLaws.WidestPatternIsEmpty | profile/profile.go:251-267 | so does 0000000000000000000-9223372036854775807 as text |
| PatternLaws.DigitItems | profile/profile.go:250-254 | digit ranges give numbers of exactly the digits of the start, with the values from start to end |
| PatternLaws.ParsesPattern | profile/profile.go:185-275 | what parsing gives for every list of admissible parts, wrapping ranges included |
| PatternLaws.PatternRoundTrip | profile/profile.go:179-184 | parsing a written pattern gives the accounts it stands for if and only if no part that is repeated at all has a range that wraps around |
| PatternLaws.DefaultPorts | profile/profile.go:138-141 | the default pattern gives exactly n copies of "0" |
| CallProfile.CallProfile.ParseCallProfile | profile/profile.go:118-176 | the fields afterwards, each list in its place, or the first fault in the order of the checks |
| CallProfile.CallProfile.ReadAccounts | profile/profile.go:127-132 | accounts and passwords, or the first faulty pattern |
| CallProfile.CallProfile.ReadNumbers | profile/profile.go:133-143 | called parties into their list for a caller, default or given ports into theirs, or the first faulty pattern |
| CallProfile.ParsesExactlyAccepted | profile/profile.go:124-176 | a profile is accepted if and only if it meets all conditions, listed independently of the order of the checks |
| CallProfile.RefusedForFirstFault | profile/profile.go:124-176 | a profile is refused for the first fault it has, of ten in the order looked for |
| CallProfile.PatternFaultIsPassedOn | profile/profile.go:127-143 | with the fault of the pattern that was faulty |
| CallProfile.CompletedProfile | profile/profile.go:124-176 | field by field, what an accepted profile becomes: which list comes from which pattern, the exact number of slots, the frame rate, and what stays |
| CallProfile.RunTimeBounds | profile/profile.go:144-167 | every index below MaxConcurrentCalls is valid in accounts, passwords, ports and a caller's called parties |
| CallProfile.SlotsWithinLimits | profile/profile.go:157-167 | there is at least one slot and no more than accounts or than asked for |
| CallProfile.DefaultPortsFit | profile/profile.go:138-141 | without ports every account gets "0", by the parser's own reading of the default pattern |
| CallProfile.ParseIsIdempotent | profile/profile.go:118-176 | parsing a completed profile again changes nothing |
| SdpText.ReplaceNthItem | rtc/util.go:92-119 | the loop puts the item into the first line with the prefix and leaves text without line, line end or item alone |
| SdpText.GetIsClean | rtc/util.go:75-90 | what is read has no space and no line end |
| MediaSdp.ReadsItemOfText | rtc/util.go:75-90 | on text: the third item of a connection line |
| SdpText.NothingToEdit | rtc/util.go:75-105 | without the prefix, a line end behind it, or so many items, nothing is read and nothing replaced |
| SdpText.ReplaceByItself | rtc/util.go:92-119 | replacing an item by itself is the identity, on any text |
| SdpText.ReplaceChangesOneItem | rtc/util.go:92-119 | a clean value changes that item only, and nothing outside the line |
| SdpText.GetAfterReplace | rtc/util.go:75-119 | what was written is read back if and only if it has no space and no line end |
| SdpText.ReplaceOverwrites | rtc/util.go:92-119 | a second replacement overwrites the first |
| SdpLines.GetOfRender | rtc/util.go:75-90 | on lines in which the prefix occurs at starts only, reading the text reads the first such line |
| SdpLines.ReplaceOfRender | rtc/util.go:92-119 | and replacing in the text replaces in that line |
| SdpRemoval.SearchNth | rtc/util.go:122-132 | the loop finds the n-th match, each search behind the one before |
| SdpRemoval.RemoveNthLine | rtc/util.go:121-139 | the text without the line of that match |
| SdpRemoval.RemovedOfRender | rtc/util.go:121-139 | on lines it removes the n-th line that starts with the prefix |
| SdpRemoval.NothingToRemove | rtc/util.go:125-137 | without the prefix or any line end nothing is removed |
| SdpRemoval.RemovedZeroth | rtc/util.go:122-138 | for n below 1 it removes the first line whatever its prefix |
| MediaSdp.RewriteForRelay | rtc/media.go:592-599 | the steps of the relay rewrite |
| MediaSdp.MarkersAsText | rtc/media.go:594-598 | the lines rewritten and read are those that start with the four texts |
| MediaSdp.RelayedRender | rtc/media.go:684-689 | on tidy lines the rewriting of the text is the rewriting of the lines, and they stay tidy |
| MediaSdp.RelayedAt | rtc/media.go:594-598 | line by line: one item of the first connection, video and audio line changes, nothing else |
| MediaSdp.RelayIsFirstCandidate | rtc/media.go:594-598 | afterwards those items are the address and port of the first candidate |
| MediaSdp.RelayCandidateIsUsed | rtc/media.go:592-599 | a library description with any plain candidate line gets the fifth and sixth item of that line |
| MediaSdp.RelayErasesExactly | rtc/media.go:594-598 | they are empty if and only if the first candidate line is missing or has none |
| MediaSdp.NoCandidateErases | rtc/media.go:594-598 | of plain lines without a candidate the address and the ports are erased |
| MediaSdp.AddressAndPortErased | rtc/media.go:592-599 | a description of v=, o=, s=, t=, m= and c= lines loses its address and its port |
| MediaSdp.RelayTwice | rtc/media.go:592-599 | a second rewrite changes nothing |
| MediaSdp.PreferVideo | rtc/media.go:85-99 | the steps of the audio removal in an offer, and in an answer, for descriptions with video only |
| MediaSdp.NothingWithoutVideo | rtc/media.go:86-86 | a description without video stays as it is |
| MediaSdp.AudioCallKeepsAudio | rtc/media.go:624-624 | such as the answer of an audio call |
| MediaSdp.VideoStays | rtc/media.go:624-635 | the first video section stays, with what followed it up to an audio section |
| MediaSdp.AudioLeftExactly | rtc/media.go:86-99 | audio is left if and only if it comes before the video and again after it |
| MediaSdp.SecondAudioIsLeft | rtc/media.go:86-99 | any audio section without a video marker, video section and audio section in this order keep the second audio |
| MediaSdp.AudioVideoAudio | rtc/media.go:86-99 | one such description |
| MediaSdp.SecondRemovalSuffices | rtc/media.go:624-635 | a second removal takes what the first left |

## Left out

- The SIP stack, registration, WebRTC, ICE, DTLS and RTP headers: external libraries, present as events
  only. Packets arrive in order and complete; reordering and loss are not part of this model.
- Clocks, sleeps and batches: `CallsPerBatch` is taken to be at least 1, and the batch index and the
  sleeps between starts have no effect in the model beyond when the next turn comes.
- JSON decoding, files, logs, report times, remote account names and log lines of a report.
- logChan and callbacks that block on it or on sdpToMediaChan: the code does not guarantee that they
  never block. sdpToMediaChan, and the loop that drains it, are not part of this model.
- Liveness of calls: an Invite that returns nil and a media run that fails never lead to a report,
  so only safety and exactly-once are stated.
- The called side's report channel: refused calls report too, so no room is claimed for it.
- MediaFunc inside: `MediaFlow` has its returns, waits and sends; what it does with the peer connection
  in between can only fail or succeed.
- The marker interceptor, audio ingestion, and the two attribute lines appended to a remote description.
- Text is characters, not bytes; the program's patterns and descriptions are ASCII.
- `AnnexB.ParseIsLossless` and the laws on `NalReader` take a stream that begins with a start code;
  what other beginnings lead to is in `H264Reader.Reader.BitStreamStartsWithH264Prefix`.
- Widths beyond what `fmt` accepts, and memory: a pattern may expand to more than fits.
- Loopback.LoopbackExactly: takes units of types 1 to 23 other than SEI with a forbidden_zero_bit of zero, parameter sets two of which fit one packet, and packets of at least three bytes; an aggregation packet larger than that would be fragmented, which the depacketizer does not undo.
- Recording.FileLoopbackExactly: takes files whose delivered units are of that kind; SEI in front of the last unit may be there.
- H264Reader.Reader.NextNAL: takes a stream that keeps reporting its end once it has, and no error before that; the data that comes with an error is dropped as in the code.
- `rtc/interceptor.go`, `rtc/g711writer`, `report`, `chans` and the names of NAL unit types: tables and
  pass-throughs.
