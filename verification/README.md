# Verified models of the kernel modules' protocol and index logic

This project models, in Dafny 4.11, the parts of the repository whose correctness is not visible in
one function body: a shared ring queue and the parser on top of it, the CAN receive dispatcher and
its raw sockets, the CAN broadcast manager, CAN bit timing, the transmit path of the MCP251x
driver, and three parts of the Industrial I/O core. `dafny verify dfyconfig.toml` checks all of it.

Code that works by changing things in place is a class or a method with loops (`Queue.Queue`,
`Framing.Receiver`, `Dispatcher.DevRcvLists`, `RawSocket.RawSock`, `BcmThrottle.RxOp`,
`BcmCyclic.TxOp`, `BitTiming.CalcBittiming`, `Demux.Buffer`, `Fixpoint.StrToFixpoint`,
`Trigger.IioTrigger`, `Mcp251x.Driver`). Each is tied by its `ensures` to a value of the same state
and a function on it; the properties are lemmas about those functions and about every run of them.
What runs concurrently is a state machine: each lock-protected region, handler, timer or bus
transaction is one atomic step, and steps come in any order.

| file | what it models |
|---|---|
| `RingQueue.dfy` | the ring as a machine: writer and reader with stale copies of each other's offset |
| `Queue.dfy` | the driver's `read` and `write` with their two bursts and their bus failures |
| `Framing.dfy` | the resumable header/body parser against the one-shot parse of the stream |
| `Dispatcher.dfy` | the specialised receiver lists against a linear scan of the filters |
| `RawSocket.dfy` | transactional installation of a socket's filters |
| `BcmThrottle.dfy` | throttled change notification |
| `BcmCyclic.dfy` | cyclic transmission in two phases |
| `BitTiming.dfy` | the bit timing search, its fixup inverse, and the MCP251x register ranges |
| `Demux.dfy` | the copy table from the device's scan to a buffer's scan |
| `Fixpoint.dfy` | printing and parsing of channel values |
| `Trigger.dfy` | the use count of a trigger, and when its accounting holds |
| `Mcp251x.dfy` | the one-frame transmit path and the echo slot |
| `Common.dfy`, `Arith.dfy` | error numbers and an option type; facts about division |

## Where the code falls short, and exactly when

The model follows the code. Where a property one would expect does not hold of it for all inputs,
the condition under which it holds is proved to be exact, with an input that shows the failure.

- Writing (`queue.c:778-793`): after too small an estimate the read offset is pulled but the second
  test uses the old estimate, so a write that would fit is still refused once. `Queue.Queue.Write`
  states this, `Queue.RefusedExample` is such a run of the ring, and `Queue.RetryAccepted` says
  exactly when the retry is accepted.
- Response framing (`queue.c:387-432`): a header whose length field is 0 is read and forgotten, which
  ends the call and leaves its words unreleased until a message follows, and a message that does not
  fit the ring never completes. `Framing.Receiver.Interrupts`: all messages are dispatched if and only
  if the stream is `Deliverable`; `Framing.EmptyHeaderStalls` is one that is not.
- Raw sockets: filter changes on a bound socket whose device can no longer be looked up go to the
  lists for all devices (`raw.c:483-502`). `RawSocket.FiltersExact`, `ErrExact`, `RebindExact` and
  `LeaveExact` give the exact conditions for a step, `BooksBalance` for whole runs; `WindowExample`
  shows the books off balance.
- Demultiplexing: the skip loop advances by the size of the channel it arrives at
  (`industrialio-buffer.c:961-970`). `Demux.SourcesExact`: the copies read the right places for all
  masks if and only if all channels but the first have one size and the first is not larger;
  `LargerFirstFails` and `SmallerBetweenFails` give the masks that go wrong.
- The same loop can advance beyond the scan. `Demux.SafeExact`: for power-of-two sizes the table stays
  inside every scan, for all masks and timestamps, if and only if no channel has two smaller ones
  before it; in `ReadsBeyond` bytes 4 and 5 of a scan of 4 bytes are read.
- Timestamps: their source ignores active channels above the buffer's last one
  (`industrialio-buffer.c:990-1004`). `Demux.TimestampExact` says exactly when that does no harm;
  in `TimestampWrong` it does.
- Bit timing: the minimum of the first segment is never checked (`dev.c:86-100`).
  `BitTiming.Tseg1Exact` says for which sample points it is met anyway; for the MCP251x constants
  these are the points from 66.7 % on, and `Mcp251xShortSegment` is a setting at 60 % that fails.
  Every field fits its register bits for every clock and bitrate if and only if the sample point is
  at least 50 % (`RegistersExact`, with `NoPropSeg` for the other side). The sample point is the best
  among the exact settings whose quotient can be set (`SampleIsOptimal`), and not among all
  (`SampleGuard`).
  The round trip through the fixup path is exact if and only if the result meets the limits that only
  that path checks and the time quantum loses less than half a unit per prescaler increment
  (`BitTiming.RoundTrip`); `FastClockFails` is a clock that
  is too fast.
- Values with a unit: what is printed for decibels is never accepted back (`Fixpoint.DecibelsRejected`),
  and pairs not in canonical sign form do not survive (`Fixpoint.RoundTrip`).
- Triggers: the use count is tested and set in two steps (`industrialio-trigger.c:123-124`).
  `Trigger.AccountingExact`: over any run the count is right throughout if and only if every
  assignment finds it still zero. That no two polls are between test and assignment at once is
  enough (`SerialisedSuffices`) but not necessary (`HarmlessOverlap`). `OverlapExample` goes wrong, and
  `OverlapDies` is where it ends: with a count of -1 no poll passes the test again (`DeadForever`).
- MCP251x: a frame queued during bus-off is discarded with the queue left stopped
  (`mcp251x.c:752-754`). `Mcp251x.StuckExact` and `StuckInRuns`: an open device's queue stays stopped
  with nothing under way if and only if that has happened and no transmit interrupt, restart, new
  frame, closing or suspending came since; `StrandedExample` is a run with automatic restart.

## Model

| member | source | states |
|---|---|---|
| RingQueue.BufDiff | linux_kernel_modules/mt7697q/queue.c:24-39 | the distance between two offsets below the size is itself below the size, and leads from one to the other |
| RingQueue.BufDiffOfCounts | linux_kernel_modules/mt7697q/queue.c:24-53 | for offsets that are word counts modulo the ring, the distance is the difference of the counts whenever that is less than the ring |
| RingQueue.Estimates | linux_kernel_modules/mt7697q/queue.c:41-53 | in every reachable state the driver's free-word and used-word estimates never exceed what is really free and really published |
| RingQueue.StepKeeps | linux_kernel_modules/mt7697q/queue.c:84-219 | every single pull, push, store, load, commit or abort of either side keeps offsets, contents and order right |
| RingQueue.RunKeeps | linux_kernel_modules/mt7697q/queue.c:84-219 | so does every interleaving of any length |
| RingQueue.FifoInEveryRun | linux_kernel_modules/mt7697q/queue.c:84-219 | in every interleaving with stale copies on both sides the words read are a prefix of the words written, no unread word is overwritten, no unpublished word is read, and all offsets stay inside the ring |
| RingQueue.PullExact | linux_kernel_modules/mt7697q/queue.c:84-179 | in every reachable state a pull shows a side exactly what the other has published or released, and the word counts it computes afterwards are exact |
| RingQueue.PushExact | linux_kernel_modules/mt7697q/queue.c:110-219 | a push makes known all that a side has committed, and puts the offset where the stream stands |
| RingQueue.AbortExact | linux_kernel_modules/mt7697q/queue.c:672-885 | after a bus failure in a transfer both streams stand where they stood, and so do the free and used words |
| Queue.StoreAllIsScript | linux_kernel_modules/mt7697q/queue.c:798-858 | storing a batch of words is a run of the ring machine, and the memory is filled from the write offset on, wrapping |
| Queue.LoadManyIsScript | linux_kernel_modules/mt7697q/queue.c:687-743 | loading a batch is a run of the ring machine and takes the words from the read offset on, wrapping |
| Queue.WriteAppends | linux_kernel_modules/mt7697q/queue.c:766-885 | a complete write appends exactly its words to the stream and publishes them all, leaving the reader's side alone |
| Queue.ReadTakes | linux_kernel_modules/mt7697q/queue.c:672-760 | a complete read returns exactly the next words of the stream, and changes no memory |
| Queue.RetryAccepted | linux_kernel_modules/mt7697q/queue.c:778-796 | after the pull of a refused write, a retry is accepted if and only if the words the reader had released leave that much room |
| Queue.EverythingArrives | linux_kernel_modules/mt7697q/queue.c:84-219 | from every reachable state one push, one pull and a read of all that is visible hand out everything written, and after the same the other way the whole ring is free |
| Queue.Queue.PullRdPtr | linux_kernel_modules/mt7697q/queue.c:84-108 | the cached read offset becomes the one in slave memory, whatever it was before, or nothing changes on a bus failure |
| Queue.Queue.PullWrPtr | linux_kernel_modules/mt7697q/queue.c:152-179 | the cached write offset becomes the one in slave memory, whatever it was before, or nothing changes on a bus failure |
| Queue.Queue.PushWrPtr | linux_kernel_modules/mt7697q/queue.c:181-219 | the committed words become published, or nothing changes on a bus failure |
| Queue.Queue.PushRdPtr | linux_kernel_modules/mt7697q/queue.c:110-150 | the words read are released, or nothing changes on a bus failure |
| Queue.Queue.BusWrite | linux_kernel_modules/mt7697q/io.c:226-276 | one burst stores its words at consecutive addresses, up to the word at which the bus fails |
| Queue.Queue.WriteBursts | linux_kernel_modules/mt7697q/queue.c:798-858 | at most two bursts, split at the wrap point, store all the words of the buffer or those before a failure |
| Queue.Queue.Write | linux_kernel_modules/mt7697q/queue.c:766-885 | all of -EAGAIN, -EIO and success: what reaches the ring, what is published and what is returned in each case |
| Queue.Queue.BusRead | linux_kernel_modules/mt7697q/io.c:278-329 | one burst loads consecutive words, up to the word at which the bus fails |
| Queue.Queue.ReadBursts | linux_kernel_modules/mt7697q/queue.c:687-743 | at most two bursts, split at the wrap point, load the words of the ring in order |
| Queue.Queue.Read | linux_kernel_modules/mt7697q/queue.c:672-760 | hands out the next words of the stream, as many as are asked for and visible, and touches nothing else; a bus failure takes nothing off the queue |
| Framing.ParseExtends | linux_kernel_modules/mt7697q/queue.c:387-479 | parsing with more words visible is parsing with fewer and continuing where that stopped |
| Framing.ParseMonotone | linux_kernel_modules/mt7697q/queue.c:387-479 | more visible words only add messages, and an unsupported response stops the parse for good |
| Framing.BodyCovered | linux_kernel_modules/mt7697common/mt7697_i.h:20 | the words asked for are the least number that holds the bytes after the header |
| Framing.DecodeExact | linux_kernel_modules/mt7697common/mt7697_i.h:30-39 | two words decode to a header if and only if they are its length, group, type and result at their places |
| Framing.ParsedSendable | linux_kernel_modules/mt7697q/queue.c:387-479 | every message of a parse is a supported queue response without a body or has the least number of words that covers its length |
| Framing.ParseEncoded | linux_kernel_modules/mt7697q/queue.c:387-479 | any messages written out one after the other are parsed as exactly these messages, to the last word |
| Framing.FitsIffCompletes | linux_kernel_modules/mt7697q/queue.c:413-441 | a message the parser waits for is dispatched if and only if it fits the room the slave has, the slave writes it in full, and it is not an unsupported queue response |
| Framing.WholeStream | linux_kernel_modules/mt7697q/queue.c:365-484 | once all is visible that the slave can write, the parse is that of the whole stream if and only if the next message is not there in full or unsupported; otherwise that message does not fit the ring |
| Framing.EmptyHeaderStalls | linux_kernel_modules/mt7697q/queue.c:388-405 | a stream whose second message never becomes visible because an empty header before it is not released |
| Framing.PositionsOnRing | linux_kernel_modules/mt7697q/queue.c:371-380 | stream positions stand for what the ring machine does: the visible words are the published ones the reader has seen, and a pull shows all that are published |
| Framing.Receiver.PullWrPtr | linux_kernel_modules/mt7697q/queue.c:371-379 | more words become visible, never beyond the room the slave has, and the parse so far stays right |
| Framing.Receiver.Dispatch | linux_kernel_modules/mt7697q/queue.c:433-453 | the pending header and exactly its body, as long as `BodyCovered` says, are handed over, once |
| Framing.Receiver.TakeMessage | linux_kernel_modules/mt7697q/queue.c:387-479 | one round of the loop: a message is taken and released, or the call ends at the end of the parse or behind an empty header |
| Framing.Receiver.ProcData | linux_kernel_modules/mt7697q/queue.c:365-484 | for every stream and however words arrive in batches, over all calls the messages dispatched are the one-shot parse of the visible words unless an empty header ended this call early, and then the next one goes on behind it; every call terminates |
| Framing.Receiver.Interrupts | linux_kernel_modules/mt7697q/queue.c:365-484 | repeated calls end with all visible that the slave can write and with the messages of the whole stream dispatched, or with one that the slave has written out but has no room for; the first is the case if and only if every message fits the ring together with the empty headers before it |
| Framing.Settled | linux_kernel_modules/mt7697q/queue.c:365-484 | once all is visible that the slave can write, the parse has the messages of the whole stream if and only if what follows can be delivered |
| Framing.AllFitDeliverable | linux_kernel_modules/mt7697q/queue.c:365-484 | without empty headers it is enough that each message fits the ring |
| Dispatcher.IndexIsRule | linux_kernel_modules/can_9x15/af_can.c:367-415 | a receiver is reached through its list if and only if its filter selects the frame by the mask/value/inversion/error rule, for every filter and every frame |
| Dispatcher.SelectsExact | linux_kernel_modules/can_9x15/af_can.c:417-445 | the rule bit by bit: flags and identifier agree wherever the mask asks, only in the low 11 bits for standard frames, the other way round if inverted, and error frames by a common class |
| Dispatcher.ScanIsDelivered | linux_kernel_modules/can_9x15/af_can.c:587-650 | for any registered filters, each stored receiver is delivered as often as a linear scan selects it |
| Dispatcher.DispatchIsLinearScan | linux_kernel_modules/can_9x15/af_can.c:587-650 | what is delivered is as a multiset what the linear scan selects, and so is the number |
| Dispatcher.HoldsAdd | linux_kernel_modules/can_9x15/af_can.c:446-492 | adding at the head of one list adds one receiver to the contents and nothing else |
| Dispatcher.HoldsRemove | linux_kernel_modules/can_9x15/af_can.c:515-578 | removing one element of one list removes that receiver once and nothing else |
| Dispatcher.OrderVisits | linux_kernel_modules/can_9x15/af_can.c:587-650 | the lists walked for a frame are different ones, and exactly those it may be delivered from |
| Dispatcher.DevRcvLists.Register | linux_kernel_modules/can_9x15/af_can.c:446-492 | the contents grow by the normalised receiver, and the entry count with them |
| Dispatcher.DevRcvLists.Unregister | linux_kernel_modules/can_9x15/af_can.c:515-578 | one copy of the receiver goes if there is one, nothing changes if there is none, and the result says whether lists being removed are now empty |
| Dispatcher.DevRcvLists.Walk | linux_kernel_modules/can_9x15/af_can.c:597-627 | walking one list delivers exactly its receivers that pass, and counts them |
| Dispatcher.DevRcvLists.RcvFilter | linux_kernel_modules/can_9x15/af_can.c:587-650 | every receiver in the contents is delivered with its multiplicity if it is selected and never otherwise, and the result is their number |
| Dispatcher.CanReceive | linux_kernel_modules/can_9x15/af_can.c:652-680 | a frame goes to the receivers of all devices and to those of its own device, and the counts add up |
| RawSocket.RawSock.Register | linux_kernel_modules/can_9x15/af_can.c:446-492 | one receiver more on a device that has lists and memory, or an error and no change |
| RawSocket.RawSock.EnableFilters | linux_kernel_modules/can_9x15/raw.c:158-179 | all filters are installed or none, whichever allocation fails, and it says exactly when |
| RawSocket.RawSock.EnableAll | linux_kernel_modules/can_9x15/raw.c:222-235 | filters and error filter are installed together or not at all |
| RawSocket.RawSock.Bind | linux_kernel_modules/can_9x15/raw.c:354-427 | exactly when it succeeds; failing, nothing changes; succeeding, the new device gains the wanted receivers and the old one loses them if it can be found |
| RawSocket.RawSock.SetFilters | linux_kernel_modules/can_9x15/raw.c:455-522 | exactly when it succeeds; failing, nothing changes; succeeding, the new filters replace the old ones, duplicates included |
| RawSocket.RawSock.SetErrFilter | linux_kernel_modules/can_9x15/raw.c:524-559 | the same for the error filter |
| RawSocket.RawSock.NotifyUnregister | linux_kernel_modules/can_9x15/raw.c:237-270 | a socket bound to the device loses its receivers there and is unbound |
| RawSocket.RawSock.Release | linux_kernel_modules/can_9x15/raw.c:310-352 | the socket's receivers go if its device can be found |
| RawSocket.RebindExact | linux_kernel_modules/can_9x15/raw.c:354-427 | after a successful bind the socket owns exactly its wanted receivers, if and only if the old device was still found or it wanted none |
| RawSocket.FiltersExact | linux_kernel_modules/can_9x15/raw.c:455-522 | after a filter change it does, if and only if the device was still found or the filters were the same |
| RawSocket.ErrExact | linux_kernel_modules/can_9x15/raw.c:524-559 | after an error filter change it does, if and only if the device was still found or the error filter was the same |
| RawSocket.LeaveExact | linux_kernel_modules/can_9x15/raw.c:237-352 | after leaving it owns none, if and only if the receivers were removed or there were none |
| RawSocket.OthersLeaveAlone | linux_kernel_modules/can_9x15/raw.c:158-559 | whatever other raw sockets do, in whatever circumstances, and other protocols and devices, leaves this socket's receivers alone on every device |
| RawSocket.StepExact | linux_kernel_modules/can_9x15/raw.c:158-559 | every step, successful, failed or someone else's, keeps the books if and only if it meets the condition of its kind |
| RawSocket.BooksBalance | linux_kernel_modules/can_9x15/raw.c:158-559 | over every run of bind, rebind, filter and error filter changes, device removal and release, with failures anywhere and others acting in between, the multiset of receivers owned is all along the current filters plus error filter on the bound interface, if and only if every step of the socket is made with its device found, removes its receivers on leaving, or makes no difference |
| RawSocket.FilterEntry | linux_kernel_modules/can_9x15/raw.c:158-179 | what is registered for a filter receives a frame if and only if the filter selects it |
| RawSocket.ErrFilterEntry | linux_kernel_modules/can_9x15/raw.c:181-191 | an error mask that is not empty gets one receiver, for the error frames with one of its bits |
| RawSocket.SocketDeliveries | linux_kernel_modules/can_9x15/raw.c:158-235 | a bound socket with its books in order gets each frame once for each of its filters that selects it and once for its error filter |
| RawSocket.WindowExample | linux_kernel_modules/can_9x15/raw.c:483-516 | a socket and a filter change for which they do not, with the device unlisted |
| BcmThrottle.ReceiveKeeps | linux_kernel_modules/can_9x15/bcm.c:632-689 | a frame keeps it so that nothing is lost |
| BcmThrottle.NoLostUpdate | linux_kernel_modules/can_9x15/bcm.c:405-689 | in every reachable state each received element was last notified with content agreeing with its newest frame on all masked bits, or is marked throttled with the timer running or its flush due |
| BcmThrottle.WhichElement | linux_kernel_modules/can_9x15/bcm.c:661-687 | a multiplexed frame is for the first element whose bits it has in the multiplex mask, and for none if there is no such element |
| BcmThrottle.ReceiveExact | linux_kernel_modules/can_9x15/bcm.c:435-510 | a frame equal on all masked bits (and in length, if checked) changes nothing; any other replaces the content and is told at once, or is held back with the timer set to the end of the interval, exactly if throttling is on and a timer runs or the last notification is recent |
| BcmThrottle.UnthrottledAtOnce | linux_kernel_modules/can_9x15/bcm.c:435-448 | without throttling, over every run, no timer ever runs, no element is marked, and each received element was last notified with content agreeing with its newest frame |
| BcmThrottle.UpdatePaced | linux_kernel_modules/can_9x15/bcm.c:435-473 | a direct notification comes at least the interval after the last one, and otherwise the timer is set to its end |
| BcmThrottle.NotificationsSpaced | linux_kernel_modules/can_9x15/bcm.c:435-627 | with ideal timers any two notifications of one element are at least the interval apart, across direct sends, flushes and rearming |
| BcmThrottle.IdealRunPaced | linux_kernel_modules/can_9x15/bcm.c:435-627 | what paces the notifications holds after every event of such a run |
| BcmThrottle.ThrottledSoonTold | linux_kernel_modules/can_9x15/bcm.c:565-627 | and an element throttled at any point has its notification in the log once the clock has passed a time within the interval |
| BcmThrottle.HeldForAReason | linux_kernel_modules/can_9x15/bcm.c:435-473 | a change is held back only if something was notified no longer than the interval ago |
| BcmThrottle.FlushExact | linux_kernel_modules/can_9x15/bcm.c:582-599 | a flush sends each throttled element once, in order, with what it holds, and no other |
| BcmThrottle.RxOp.UpdateAndSend | linux_kernel_modules/can_9x15/bcm.c:435-473 | stores the frame, then sends, arms the timer, or leaves it to the running one, as `ReceiveExact` tells apart |
| BcmThrottle.RxOp.CmpToIndex | linux_kernel_modules/can_9x15/bcm.c:479-510 | an update happens for a first frame, a masked difference, or a checked length change, and not otherwise |
| BcmThrottle.RxOp.RxHandler | linux_kernel_modules/can_9x15/bcm.c:632-689 | picks the element by identifier only, single mask, or multiplex match, and is the step of the model |
| BcmThrottle.RxOp.ThrFlush | linux_kernel_modules/can_9x15/bcm.c:582-599 | counts, and if asked sends, exactly the throttled elements |
| BcmThrottle.RxOp.ThrHandler | linux_kernel_modules/can_9x15/bcm.c:613-627 | rearms and schedules the flush, or stops and forgets the last time, depending on what is throttled |
| BcmThrottle.RxOp.ThrTasklet | linux_kernel_modules/can_9x15/bcm.c:601-607 | sends exactly the throttled elements |
| BcmCyclic.TimeoutAdvances | linux_kernel_modules/can_9x15/bcm.c:349-388 | each expiry takes the operation one frame further along its schedule |
| BcmCyclic.TimerFollows | linux_kernel_modules/can_9x15/bcm.c:349-388 | however it was set, a running timer drives the operation through its schedule: the first phase, then the second one or silence |
| BcmCyclic.ScheduleExact | linux_kernel_modules/can_9x15/bcm.c:361-388 | one frame per expiry, in turn, and one TX_EXPIRED with the last of the first phase if it was asked for |
| BcmCyclic.SetupExact | linux_kernel_modules/can_9x15/bcm.c:939-980 | which of SETTIMER, STARTTIMER and TX_ANNOUNCE sends a frame, counts it, sets, keeps or stops the timer, and where the cycle goes on |
| BcmCyclic.RunExact | linux_kernel_modules/can_9x15/bcm.c:349-388 | after a setup that starts the timer, for all intervals and counts including zero and up to any expiry: the j-th frame sent is the start plus j modulo the number of frames, at its time in closed form, and the end of a first phase of two or more frames is announced once |
| BcmCyclic.SetupFrames | linux_kernel_modules/can_9x15/bcm.c:858-878 | after TX_SETUP each frame is the new one at its index, with the head's identifier if TX_CP_CAN_ID says so, and those beyond are the old ones |
| BcmCyclic.DueClosedForm | linux_kernel_modules/can_9x15/bcm.c:349-359 | the time of each expiry in closed form over the two phases, either of which may be missing |
| BcmCyclic.CycleIsRoundRobin | linux_kernel_modules/can_9x15/bcm.c:274-280 | the frame at each turn is the start plus the turn modulo the number of frames |
| BcmCyclic.TxOp.SendFrame | linux_kernel_modules/can_9x15/bcm.c:244-283 | sends the current frame and steps to the next in the cycle |
| BcmCyclic.TxOp.TimeoutTasklet | linux_kernel_modules/can_9x15/bcm.c:361-388 | the expiry of the model |
| BcmCyclic.TxOp.TxSetup | linux_kernel_modules/can_9x15/bcm.c:829-983 | every outcome for an existing operation: bad counts and too many frames change nothing, a bad length keeps the frames copied so far, otherwise the operation is reconfigured |
| BitTiming.Segments | linux_kernel_modules/can_9x15/dev.c:86-100 | the segments chosen for a number of quanta stay within their maxima and the second one's minimum |
| BitTiming.SplitBest | linux_kernel_modules/can_9x15/dev.c:86-100 | of all second segments within the limits the one that samples last without passing the wanted point, and the earliest if all pass it |
| BitTiming.SearchSound | linux_kernel_modules/can_9x15/dev.c:128-161 | the best choice is a real one: in range, with the error it claims |
| BitTiming.SearchCovers | linux_kernel_modules/can_9x15/dev.c:128-161 | no choice tried has a smaller error, although the search may stop early |
| BitTiming.QuotientBrackets | linux_kernel_modules/can_9x15/dev.c:131-142 | for a number of quanta, the quotient and the number above it give the nearest bitrates from above and below |
| BitTiming.SearchIsOptimal | linux_kernel_modules/can_9x15/dev.c:128-161 | with prescalers from 1 in steps of 1, once anything is found its bitrate error is no larger than that of any pair of prescaler and quanta in range |
| BitTiming.SampleIsOptimal | linux_kernel_modules/can_9x15/dev.c:145-161 | if some setting meets the bitrate exactly and its quotient is in range, so does the result, with a sample point at least as good |
| BitTiming.SampleGuard | linux_kernel_modules/can_9x15/dev.c:128-161 | a clock and sample point for which an exact setting with its quotient out of range would be better |
| BitTiming.CalcInRange | linux_kernel_modules/can_9x15/dev.c:102-205 | a successful result has prescaler, second segment, jump width and sample point in range and a bitrate error under 5.1 % |
| BitTiming.CalcSegments | linux_kernel_modules/can_9x15/dev.c:177-190 | the two halves before the sample point add up to the first segment, through the unsigned fields |
| BitTiming.DefaultPoint | linux_kernel_modules/can_9x15/dev.c:117-126 | without a sample point given the result is that for 75.0 % above 800 kbit/s, 80.0 % above 500 kbit/s, and 87.5 % otherwise |
| BitTiming.CalcFields | linux_kernel_modules/can_9x15/dev.c:173-202 | the fields of a result agree with one another: the jump width is the least of the wanted one, the maximum and the second segment, the first segment is halved, and bitrate, sample point and time quantum are those of prescaler and segments |
| BitTiming.AcceptsExact | linux_kernel_modules/can_9x15/dev.c:163-175 | with prescalers from 1 in steps of 1, a search that finds anything succeeds if and only if some setting in range is within 5 %, and otherwise the error is -EDOM |
| BitTiming.CalcOptimal | linux_kernel_modules/can_9x15/dev.c:102-205 | if a setting is exact and its quotient in range, the result has the wanted bitrate and a sample point no farther off than that setting can give |
| BitTiming.Tseg1Exact | linux_kernel_modules/can_9x15/dev.c:86-205 | every success meets the minimum of the first segment, for all clocks and bitrates, if and only if the sample point is high enough or the second segment cannot vary |
| BitTiming.Mcp251xSamplePoint | linux_kernel_modules/can_9x15/mcp251x.c:223-233 | for the MCP251x constants that is a sample point of at least 667 |
| BitTiming.Mcp251xShortSegment | linux_kernel_modules/can_9x15/mcp251x.c:223-233 | 10 kbit/s from 3.66 MHz at 60 % gives a first segment of 2 quanta, below the minimum of 3 |
| BitTiming.Mcp251xRegistersFit | linux_kernel_modules/can_9x15/mcp251x.c:589-610 | with a sample point of at least 50 % every field fits its register bits |
| BitTiming.RegistersExact | linux_kernel_modules/can_9x15/mcp251x.c:589-610 | every field does for every clock and bitrate if and only if the sample point is at least 50 % |
| BitTiming.NoPropSeg | linux_kernel_modules/can_9x15/mcp251x.c:589-610 | below that, a clock of six times the bitrate leaves no propagation segment to write |
| BitTiming.PrescalerRecovered | linux_kernel_modules/can_9x15/dev.c:238-245 | the prescaler computed back from the rounded time quantum is the original one if and only if the loss is below half a unit, for any increment |
| BitTiming.PrescalerNearest | linux_kernel_modules/can_9x15/dev.c:238-245 | for any time quantum the prescaler is the multiple of the increment nearest to it |
| BitTiming.FixupMeans | linux_kernel_modules/can_9x15/dev.c:220-255 | exactly what is rejected and how; what is accepted keeps its segments, gets bitrate and sample point that belong to them, and is left alone by a second pass |
| BitTiming.RoundTrip | linux_kernel_modules/can_9x15/dev.c:220-255 | feeding a result whose time quantum fits 32 bits back returns prescaler, bitrate, sample point and all fields unchanged if and only if it meets the segment and jump width limits and that loss bound |
| BitTiming.FastClockFails | linux_kernel_modules/can_9x15/dev.c:238-245 | a timing calculated for a clock of 700 MHz that the fixup path does not return |
| BitTiming.SlowClockRoundTrip | linux_kernel_modules/can_9x15/dev.c:238-245 | any clock of at most 500 MHz meets it |
| BitTiming.UpdateSpt | linux_kernel_modules/can_9x15/dev.c:86-100 | the code computes the segments and sample point of the model |
| BitTiming.SearchLoop | linux_kernel_modules/can_9x15/dev.c:128-161 | the loop with its early exits finds the best choice of the model |
| BitTiming.CalcBittiming | linux_kernel_modules/can_9x15/dev.c:102-205 | the whole calculation returns the result or the error of the model |
| BitTiming.FixupBittiming | linux_kernel_modules/can_9x15/dev.c:220-255 | likewise for the fixup path |
| Demux.TableDestinations | linux_kernel_modules/iio/industrialio-buffer.c:954-986 | from any channel on, the copies are one per selected channel, in order, each at its aligned place |
| Demux.DestinationsDisjoint | linux_kernel_modules/iio/industrialio-buffer.c:954-1015 | for any sizes and masks the destination ranges are aligned, ordered, disjoint and inside the size computed for the scan |
| Demux.TableSources | linux_kernel_modules/iio/industrialio-buffer.c:954-986 | with all sizes but the first equal and the first not larger, every copy reads its channel's place |
| Demux.SourcesExact | linux_kernel_modules/iio/industrialio-buffer.c:954-986 | for power-of-two sizes the copies read the right places for all masks if and only if the sizes are of that form |
| Demux.LargerFirstFails | linux_kernel_modules/iio/industrialio-buffer.c:961-970 | masks that go wrong for a larger channel before a smaller one |
| Demux.SmallerBetweenFails | linux_kernel_modules/iio/industrialio-buffer.c:961-970 | masks that go wrong for a smaller channel before a larger one |
| Demux.TimestampExact | linux_kernel_modules/iio/industrialio-buffer.c:988-1010 | for any sizes the timestamp goes to its place at the end of the scan; with sizes of the form above it comes from its place exactly if the active channels above the buffer's last one take no extra room |
| Demux.TimestampOfHighest | linux_kernel_modules/iio/industrialio-buffer.c:988-1010 | which is so when the buffer has the highest active channel |
| Demux.TimestampWrong | linux_kernel_modules/iio/industrialio-buffer.c:988-1010 | five channels of two bytes of which the first is selected: the timestamp is read at 8 and lies at 16 |
| Demux.FullTableSafe | linux_kernel_modules/iio/industrialio-buffer.c:935-1022 | where everything before a channel that is smaller than a later one is aligned for the later one, the table with or without a timestamp reads inside every scan of the computed size and writes disjoint ranges inside the bounce buffer |
| Demux.SafeExact | linux_kernel_modules/iio/industrialio-buffer.c:935-1022 | for power-of-two sizes that is so for all masks and timestamps if and only if no channel has two smaller ones before it |
| Demux.TwoSmallerReads | linux_kernel_modules/iio/industrialio-buffer.c:961-970 | masks for which the table reads beyond the scan otherwise |
| Demux.ReadsBeyond | linux_kernel_modules/iio/industrialio-buffer.c:961-970 | channels of 1, 1 and 2 bytes of which the second is skipped: a read from byte 4 of a scan of 4 |
| Demux.PowersOfTwo | linux_kernel_modules/iio/industrialio-buffer.c:961-970 | power-of-two sizes meet what these results ask of sizes |
| Demux.DemuxPreserves | linux_kernel_modules/iio/industrialio-buffer.c:889-901 | demultiplexing a scan puts every selected channel's bytes at that channel's place, and those of the timestamp at its place under exactly that condition |
| Demux.Buffer.UpdateDemux | linux_kernel_modules/iio/industrialio-buffer.c:935-1022 | equal masks need no table, too little memory leaves none, otherwise the table and a bounce buffer of the computed scan size |
| Demux.Buffer.Demux | linux_kernel_modules/iio/industrialio-buffer.c:889-901 | the scan itself without a table, otherwise the bounce buffer with every copy of the table in effect |
| Fixpoint.WeightedIsTruncation | linux_kernel_modules/iio/industrialio-core.c:472-478 | adding up digits with a shrinking multiplier is the fraction cut off at the precision |
| Fixpoint.ParsedIsTruncation | linux_kernel_modules/iio/industrialio-core.c:457-503 | for every accepted text the pair is the decimal truncated toward zero at the precision, with the sign on the integer part unless that is 0 |
| Fixpoint.AcceptedExact | linux_kernel_modules/iio/industrialio-core.c:457-503 | a text is accepted if and only if it is a sign, digits, a point with more digits, and a newline, each of which may be missing |
| Fixpoint.TextParsed | linux_kernel_modules/iio/industrialio-core.c:457-503 | such a text is parsed to the digits before the point and the weighted ones after it, with the sign on the first that can carry it |
| Fixpoint.RoundTrip | linux_kernel_modules/iio/industrialio-core.c:394-415 | printing and parsing with the matching multiplier returns the same pair, with or without the newline, if and only if the pair is canonical |
| Fixpoint.Printed | linux_kernel_modules/iio/industrialio-core.c:394-415 | any pair with its fraction in range prints as a text with these parts, negative as a whole if either is |
| Fixpoint.DecibelText | linux_kernel_modules/iio/industrialio-core.c:401-409 | a decibel value prints as the plain one with the unit before the newline |
| Fixpoint.DecibelsRejected | linux_kernel_modules/iio/industrialio-core.c:401-409 | no printed decibel value is accepted back |
| Fixpoint.StrToFixpoint | linux_kernel_modules/iio/industrialio-core.c:457-503 | the one-pass parser accepts exactly a sign, a decimal and a final newline, each optional, and returns the pair of the model |
| Trigger.StepKeeps | linux_kernel_modules/iio/industrialio-trigger.c:119-168 | every step keeps the accounting, if a round starts on a count of zero |
| Trigger.RunKeeps | linux_kernel_modules/iio/industrialio-trigger.c:119-168 | so does every such run, whatever the interleaving |
| Trigger.AccountingExact | linux_kernel_modules/iio/industrialio-trigger.c:119-168 | over every run of polls, visits, reports and reenables in any order, the use count is the slots to be visited plus the consumers not done throughout if and only if every assignment finds it zero |
| Trigger.NoOverlap | linux_kernel_modules/iio/industrialio-trigger.c:119-168 | in such a run the count is zero exactly when the last round was visited and reported in full, no consumer is polled while busy, and reenables and drained rounds match one to one |
| Trigger.SerialisedSuffices | linux_kernel_modules/iio/industrialio-trigger.c:123-124 | polls that are never between test and assignment together always find it zero |
| Trigger.HarmlessOverlap | linux_kernel_modules/iio/industrialio-trigger.c:123-124 | a run in which two are and the accounting still holds |
| Trigger.AssignExact | linux_kernel_modules/iio/industrialio-trigger.c:123-124 | setting the count keeps it right if and only if it finds it still zero |
| Trigger.OverlapExact | linux_kernel_modules/iio/industrialio-trigger.c:123-124 | if one more poll passes the test and all that passed go straight on, the count stays right if and only if no other was in between |
| Trigger.OverlapExample | linux_kernel_modules/iio/industrialio-trigger.c:119-135 | a run in which a consumer is polled twice without being done |
| Trigger.DeadForever | linux_kernel_modules/iio/industrialio-trigger.c:119-168 | once all is over and the count is not zero, no later step starts or drains a round |
| Trigger.NeverDead | linux_kernel_modules/iio/industrialio-trigger.c:119-168 | runs whose rounds start on a count of zero do not come to that |
| Trigger.OverlapDies | linux_kernel_modules/iio/industrialio-trigger.c:119-168 | the run with the consumer polled twice does: two rounds, one reenable, and a count of -1 |
| Trigger.IioTrigger.Poll | linux_kernel_modules/iio/industrialio-trigger.c:119-135 | nothing while a round is on; otherwise one round, and if all consumers finish at once one more for each missed interrupt |
| Trigger.IioTrigger.SetEnabled | linux_kernel_modules/iio/industrialio-trigger.c:401-417 | one slot is enabled or disabled, and nothing else changes |
| Trigger.IioTrigger.HandleIrq | linux_kernel_modules/iio/industrialio-trigger.c:127-128 | the polled consumer is waited for, or done at once |
| Trigger.IioTrigger.NotifyDone | linux_kernel_modules/iio/industrialio-trigger.c:160-168 | the last one done reenables the trigger, and a missed interrupt starts the next round |
| Mcp251x.StepKeeps | linux_kernel_modules/can_9x15/mcp251x.c:512-993 | every step of the driver keeps one frame at a time, its history and its queued work |
| Mcp251x.RunKeeps | linux_kernel_modules/can_9x15/mcp251x.c:512-993 | so does every run |
| Mcp251x.Transmission | linux_kernel_modules/can_9x15/mcp251x.c:512-935 | in every run a pending frame and one in flight exclude each other, an occupied echo slot implies a frame in flight, it is never met occupied, and every accepted frame is echoed or freed at most once and in order, and by the time the device is closed exactly once |
| Mcp251x.StuckExact | linux_kernel_modules/can_9x15/mcp251x.c:512-993 | a step leaves an open device's queue stopped with no frame under way and no restart to come if and only if it discards the pending frame because of bus-off, or it was so before and the step is none of those that free it |
| Mcp251x.StuckInRuns | linux_kernel_modules/can_9x15/mcp251x.c:512-993 | a run ends that way if and only if some step of it discarded a frame and no later one freed the queue |
| Mcp251x.StrandedExample | linux_kernel_modules/can_9x15/mcp251x.c:744-768 | a run with automatic restart that ends that way with the bus recovered |
| Mcp251x.FateExact | linux_kernel_modules/can_9x15/mcp251x.c:744-935 | a step echoes the frame in the echo slot if and only if it is a transmit interrupt that is not cut short by bus-off, and every other frame it ends is freed |
| Mcp251x.EchoedExact | linux_kernel_modules/can_9x15/mcp251x.c:512-993 | over every run a frame is echoed if and only if such an interrupt met it in the echo slot, and freed otherwise |
| Mcp251x.EchoesGenuine | linux_kernel_modules/can_9x15/dev.c:312-350 | in every run each frame that is echoed is valid and asked for its echo |
| Mcp251x.RoundServes | linux_kernel_modules/can_9x15/mcp251x.c:512-935 | from every state in which the device is ready, handing over a valid frame, the transmit work and a transmit interrupt end that frame, by an echo if it asks for one and a copy can be had, and leave the device ready |
| Mcp251x.ServesAll | linux_kernel_modules/can_9x15/mcp251x.c:512-935 | so any number of frames is echoed, all of them and in order |
| Mcp251x.OpenServes | linux_kernel_modules/can_9x15/mcp251x.c:937-993 | opening a closed device makes it ready, with every frame accepted before ended |
| Mcp251x.RestartServes | linux_kernel_modules/can_9x15/mcp251x.c:770-804 | so does a restart of an open device from any state it can be in, stopped queue and bus-off included |
| Mcp251x.WakingServes | linux_kernel_modules/can_9x15/mcp251x.c:1209-1258 | so does waking from sleep if the controller comes up |
| Mcp251x.RestartWorkExact | linux_kernel_modules/can_9x15/mcp251x.c:770-804 | the restart work leaves nothing to do, the queue awake and nothing in flight, and lifts bus-off and the handler's giving up exactly if the controller was brought back |
| Mcp251x.GivenUpExact | linux_kernel_modules/can_9x15/mcp251x.c:909-916 | without automatic restart and with no restart queued, the handler gives up on an open device at a bus-off reading and at nothing else; only a restart, closing or sleep ends that, and no frame is echoed meanwhile |
| Mcp251x.PassesExact | linux_kernel_modules/can_9x15/mcp251x.c:806-935 | the handler returns the echo and wakes the queue if and only if it comes to a report of the transmission before a reading that ends its loop |
| Mcp251x.StoppedEndsAll | linux_kernel_modules/can_9x15/mcp251x.c:695-727 | whatever the interrupt handler still does and whatever work was queued, in either order, closing ends every accepted frame, none of them by an echo, and leaves nothing queued |
| Mcp251x.PassesKeep | linux_kernel_modules/can_9x15/mcp251x.c:806-935 | any number of passes of the interrupt handler keeps the invariant |
| Mcp251x.Driver.PutEchoSkb | linux_kernel_modules/can_9x15/dev.c:312-350 | no loopback, occupied, failed clone and kept: the fate of the frame in each case |
| Mcp251x.Driver.Clean | linux_kernel_modules/can_9x15/mcp251x.c:282-294 | the pending frame and the echo of the one in flight are freed |
| Mcp251x.Driver.HardStartXmit | linux_kernel_modules/can_9x15/mcp251x.c:512-531 | busy and unchanged, dropped as invalid, or accepted with the queue stopped and work queued |
| Mcp251x.Driver.TxWorkHandler | linux_kernel_modules/can_9x15/mcp251x.c:744-768 | the pending frame is discarded in bus-off, otherwise in flight with its echo kept |
| Mcp251x.Driver.CanIst | linux_kernel_modules/can_9x15/mcp251x.c:806-935 | the handler's loop over what it reads, with both its early exits, whose effect `PassesExact` describes |
| Mcp251x.Driver.RestartWorkHandler | linux_kernel_modules/can_9x15/mcp251x.c:770-804 | bringing the controller back and restarting transmission, each if due |
| Mcp251x.Driver.Open | linux_kernel_modules/can_9x15/mcp251x.c:937-993 | a fresh start, or closed as before on failure |
| Mcp251x.Driver.CanRestart | linux_kernel_modules/can_9x15/dev.c:396-436 | the echo and the pending frame are freed, and a restart is queued |
| Mcp251x.Driver.Stop | linux_kernel_modules/can_9x15/mcp251x.c:695-727 | flush, possibly the interrupt handler once more, the queued work, and cleaning up, in that order |
| Mcp251x.Driver.SuspendUp | linux_kernel_modules/can_9x15/mcp251x.c:1209-1237 | an open device's queue stops and what to do on waking is noted |
| Mcp251x.Driver.ResumeUp | linux_kernel_modules/can_9x15/mcp251x.c:1239-1258 | the restart work is queued |

## Left out

- Framing.Receiver.Dispatch: the receive callback is taken to read exactly the body, and queue-group responses to carry none; a single slave-to-master queue is in use, since the pending header is per device.
- Framing.Receiver.PullWrPtr: bus failures are modelled in `Queue`, not again in the parser. The repeated calls of `Interrupts` stand for the interrupts that the slave raises. The words come from a position in the stream, which `PositionsOnRing` ties to the ring, and not from calls of `Queue.Read`.
- Queue.Queue.BusWrite: the SPI transactions behind a burst (command, status polling, retries) are one transfer that may stop at any word.
- Dispatcher.DevRcvLists.RcvFilter: the per-receiver and global match statistics are not modelled, and identifiers are three flags and a set of bit positions rather than one word.
- RawSocket.RawSock.SetFilters: faults in copying from user memory, the checks of option lengths and the reporting of errors to the socket's user are not modelled.
- BcmThrottle.RxOp.RxHandler: replies to remote frames (RX_RTR_FRAME), timeout monitoring with RX_ANNOUNCE_RESUME, changes of configuration while frames come, and messages dropped because the user's queue is full are not modelled; the two private bits of `can_dlc` are fields of their own.
- BcmCyclic.TxOp.TxSetup: creating the operation, faults in copying from user memory, and failures inside `can_send` are not modelled.
- BitTiming.CalcBittiming: intermediate products are taken not to overflow; only the fields stored as 32-bit numbers wrap.
- BitTiming.RoundTrip: speaks of results whose time quantum fits 32 bits.
- Demux.Buffer.Demux: speaks of tables that stay inside the scan it is given; `SafeExact` says for which sizes all do.
- Demux.Buffer.UpdateDemux: `ALIGN` is rounding up to a multiple, which it is for power-of-two sizes.
- Fixpoint.RoundTrip: the fractional formats (IIO_VAL_FRACTIONAL, IIO_VAL_FRACTIONAL_LOG2) and plain integers are not modelled, and integers do not overflow.
- Trigger.IioTrigger.Poll: the methods describe one caller at a time; concurrent callers are runs of the machine. Consumer slots are not allocated and freed.
- Mcp251x.StepKeeps: the cleaning in the restart timer runs without the lock in the driver; it is atomic here. Suspending a closed device is not modelled.
- Mcp251x.Driver.CanIst: reception, error frames and the statistics counters of the handler are not modelled, nor is the packing of frames into controller registers.
- SPI, I2C, GPIO, regulator, regmap and power management calls, probing and removal of devices, board files, sysfs and procfs text: input and output around the logic modelled here.
- RCU, reference counts, locks and work queue internals are atomic steps.
- The queue's initialisation, shutdown and reset, and its UART transport.
- `linux_kernel_modules/can_9x07`: a second copy of the MCP251x driver.
- Charger, gauge, motion and climate sensor drivers: register masks, tables and device sequences.
