# Verified model of the actix-net core

This project models, in Dafny, the parts of the actix-net workspace whose correctness does not show
in any one function, and proves what they promise for every input, every run and every interleaving:

- **The back-pressure protocol of actix-server.** The accept thread, the worker threads and the
  server task share connection counters, a waker queue, worker channels and a command channel.
  `Protocol.dfy` is a state machine over the atomic steps of all of them, with the search of the
  accept thread for a worker step by step; `ProtocolProofs.dfy` and `ProtocolTheorems.dfy` prove what
  every run keeps. `Accepting.dfy` is the accept thread in the form of the source, a struct whose methods
  loop over workers, listeners and the queue, with the other threads acting between any two of its
  atomic actions as a schedule dictates; everything it does is proved to be a run of the protocol.
  `AcceptSteps.dfy`, `AcceptSearch.dfy` and `AcceptTheorems.dfy` hold what that needs and what follows
  from it. `LimitRuns.dfy` and `ConnectionLimit.dfy` say exactly when the connection limit holds, and
  `StaleFlag.dfy`, `TwoDeaths.dfy`, `OneDeath.dfy` and `HaltBoundary.dfy` exactly when the accept thread
  can stop for good. `Pausing.dfy` says which listeners stay registered in a pause. `WorkerFuture.dfy`
  is the worker as a polled future on the same protocol, with `WorkerServices.dfy` for its services and
  its log, `AvailabilityWords.dfy` the words behind the availability flags, and `Joining.dfy` the future
  the server waits with.
- **The framed transport of actix-codec with its lines codec.** `Lines.dfy` says what a byte stream
  means as lines, looking at all of it at once, and proves the incremental decoder against that.
  `Codec.dfy` and `FramedTransport.dfy` are the codec and the transport with their mutable buffers,
  flags and loops; `FramedRuns.dfy` covers whole runs and both ends together.
- **Single-threaded wake-ups.** `LocalWake.dfy` is the one-slot waker, `LocalChannel.dfy` the channel of
  local-channel, and `TaskCounter.dfy` the counter of actix-utils.
- **Stopping a System of actix-rt** (`SystemStop.dfy`), and **the `and_then` and `then` combinators
  of actix-service** as polled futures (`Combinators.dfy`).

Things that the outside world decides (I/O outcomes, what leaf futures answer, what other threads do
between two actions, which events a poll returns) are scripts or functions given as parameters, and
every theorem is about all of them.

## What the code does not promise

Some properties that the code or its comments suggest do not hold. Each has an example in the model,
and where there is a boundary, the exact condition:

- The connection limit holds in all runs with at most `d` deaths of workers if and only if `d` is
  zero, or there is no worker, or one worker with a limit of one: `ConnectionLimit.LimitHoldsIff`. A
  dead worker's connection is forced on a full one; and a notification of a dead worker can stand for
  its full replacement.
- The search for a worker in `accept_one` ends for exactly the flags and handles that
  `AcceptSearch.SearchEndsIff` names, and the code's search agrees with that:
  `Accepting.Accept.AcceptOne`. The flag of an id without a handle makes it go round for ever; without
  any worker the source indexes an empty vector. Both come of a notification of a dead worker that is
  read when its handle is gone.
- The accept thread can go on in all runs with at most `d` deaths of workers if and only if `d` is zero, or
  there is no worker, or the limit is one and there is one worker only or one death only:
  `HaltBoundary.GoesOnIff`. The runs that go wrong are `StaleFlag.SpinningIsReachable`,
  `StaleFlag.PanicIsReachable` and `TwoDeaths.TwoDeathsHalt`.
- A paused server may still accept: in a pause a listener is registered if and only if it backed off after a
  resource error in an earlier pause, and both the resume and the next pause came before its deadline:
  `Pausing.RegisteredInPauseIff`, `Pausing.PauseMaySpare`; the accept thread keeps to this ledger:
  `Accepting.Accept.PollWith`.
- A round trip through the lines codec gives the items back for exactly those without LF, without a
  trailing CR, within the limit and valid as UTF-8: `Lines.RoundTripIff`, `FramedRuns.EndToEnd`.
- A caller that replaces a codec's buffer, or takes a used codec for a new transport, gets the right line
  exactly if the old scan index skips no LF, or the line up to the first LF is too long anyway:
  `Lines.StaleIndexIff`, `FramedRuns.UsedCodecIff`.
- A poll of a transport may report "not yet", or an I/O error, although an item can be decoded from its
  buffer: exactly if the transport is not marked readable and the next read is pending or fails, as can
  happen to a transport from newly made parts: `FramedTransport.NotYetWithAnItemIff`.
- `Framed::close` is documented to flush the write buffer, and leaves it as it is:
  `FramedTransport.Framed.Close`.
- A task that the task counter tells to wait is woken by the next drop that makes room if and only if no
  other task is told to wait after it: `TaskCounter.WokenIff`.
- An arbiter that registers after the last `Exit` is never stopped: `SystemStop.LateArbiterRunsOn`.
- `a.k1(b).k2(c)` and `a.k1(b.k2(c))` cannot be told apart, unless k1 is `and_then` and k2 is `then`:
  `Combinators.ChainsAreAssociativeIff`, and for factories `Combinators.FactoryChainsAreAssociativeIff`.

## Model

| member | source | states |
|---|---|---|
| Lines.CacheIsTransparentIff | actix-codec/src/lines.rs:87-96 | the stored scan index finds the same LF as a fresh scan exactly when no LF lies before it |
| Lines.EarlyRejectionIff | actix-codec/src/lines.rs:97-110 | a buffer without LF is rejected exactly when every completion of its line would be too long |
| Lines.BufferBound | actix-codec/src/lines.rs:97-114 | after "need more" under a finite limit the buffer holds at most the limit, or the limit and one CR |
| Lines.DecodeKeepsItems | actix-codec/src/lines.rs:81-150 | one decode takes exactly the next item off the one-shot reading of all bytes, buffered and still to come, or leaves that reading alone |
| Lines.DecodeEofKeepsItems | actix-codec/src/lines.rs:152-174 | the same at the end of the stream; nothing is returned exactly when nothing is left, and every other result than a rejection consumes bytes |
| Lines.DrainEof | actix-codec/src/lines.rs:152-174 | calling decode at the end until it stops terminates and gives the one-shot reading of the buffer |
| Lines.IndexIsOnlyACache | actix-codec/src/lines.rs:81-174 | after any history of appends and decodes, decoding with the stored index and with index zero give the same item and leave the same bytes |
| Lines.StaleIndexIff | actix-codec/src/lines.rs:87-110 | for any limit, decoding from a stored index and from scratch give the same item and leave the same bytes exactly when the index skips no LF, or the line up to the first LF is too long |
| Lines.EncodedLfIsCut | actix-codec/src/lines.rs:64-75 | an item with an LF in it never comes back as it was |
| Lines.RoundTripIff | actix-codec/src/lines.rs:64-174 | decoding the encoding of any items gives the items back if and only if each is clean |
| Lines.LfEndsLine | actix-codec/src/lines.rs:132-149 | a text within the limit, valid and not ending in CR, followed by LF, is the next item |
| Lines.CrLfEndsLine | actix-codec/src/lines.rs:132-149 | any valid text within the limit followed by CR and LF is the next item, so of two CRs exactly one stays |
| Lines.LastLine | actix-codec/src/lines.rs:152-174 | the same for the last line without its LF, with or without its CR; with no text there is none |
| Lines.RejectedIff | actix-codec/src/lines.rs:97-149 | a line is rejected if and only if its length without one trailing CR exceeds a finite limit, and otherwise malformed if and only if that text is not UTF-8 |
| Codec.ScanFrom | actix-codec/src/lines.rs:89-96 | the search from the start index finds the first LF there, as a position in the whole buffer |
| Codec.LinesCodec.EncodeItem | actix-codec/src/lines.rs:68-74 | appends the item and one LF, and grows the buffer as needed |
| Codec.LinesCodec.ExceedsLimit | actix-codec/src/lines.rs:117-128 | the length test with its saturating addition means: there is a limit, and the length less one trailing CR exceeds it |
| Codec.LinesCodec.DecodeStep | actix-codec/src/lines.rs:81-150 | decoding in place gives the item, index and buffer of the value-level decoder, for any index and buffer |
| Codec.LinesCodec.DecodeEofStep | actix-codec/src/lines.rs:152-174 | the same for decoding at the end of the stream |
| FramedTransport.Framed.constructor | actix-codec/src/framed.rs:53-61 | a new transport has empty buffers and no flags, whatever codec it gets |
| FramedTransport.Framed.FromParts | actix-codec/src/framed.rs:342-350 | a transport from parts has the buffers, the codec and the flags of the parts |
| FramedTransport.Framed.NextItem | actix-codec/src/framed.rs:176-233 | the read loop ends, and its answer and what it leaves behind are those of the poll on values, for any flags, index, buffer, allocator and input |
| FramedTransport.PollKeepsItems | actix-codec/src/framed.rs:176-233 | a poll takes exactly the next item off the one-shot reading of all bytes, buffered and to come, or leaves that reading alone, and reports the end exactly when nothing is left |
| FramedTransport.NotYetWithAnItemIff | actix-codec/src/framed.rs:191-226 | with an item at hand a poll reports "not yet" or an I/O error exactly if the transport is not readable and the next read is pending or fails |
| FramedTransport.PollReports | actix-codec/src/framed.rs:213-231 | a poll reports an I/O error if and only if the last outcome it used up is a failure, "not yet" if and only if that is pending or the script has run out, and otherwise an item or the end; no failure is swallowed |
| FramedTransport.Framed.ReadMore | actix-codec/src/framed.rs:214-231 | makes room, reads once, and sets READABLE, and EOF exactly when there was room and no byte came |
| FramedTransport.ReadKeepsAhead | actix-codec/src/framed.rs:216-231 | a read of any size moves bytes into the buffer and changes nothing about the bytes ahead |
| FramedTransport.Framed.Write | actix-codec/src/framed.rs:160-173 | puts the encoding of the item behind what is buffered |
| FramedTransport.Framed.Flush | actix-codec/src/framed.rs:236-266 | the write loop ends and does what the flush on values does, for any outcomes of the I/O object |
| FramedTransport.Framed.PollReady | actix-codec/src/framed.rs:301-307 | ready below the high-water mark, otherwise the result of a flush |
| FramedTransport.Framed.Close | actix-codec/src/framed.rs:269-278 | flushes the I/O object, then shuts it down, with the outcome of the first that is not done; the write buffer and the wire stay as they are |
| FramedRuns.DeliveredIsOneShot | actix-codec/src/framed.rs:176-233 | every run delivers a prefix of the one-shot reading of initial buffer and all input, and all of it once it has ended or rejected a line |
| FramedRuns.EndIsFinal | actix-codec/src/framed.rs:186-198 | after the end every poll reports the end |
| FramedRuns.OverlongIsFinal | actix-codec/src/framed.rs:186-209 | after an overlong line every poll reports that line again |
| FramedRuns.EnoughPollsFinish | actix-codec/src/framed.rs:176-233 | over a script that ends, more polls than there are bytes and outcomes finish the run |
| FramedRuns.ChunkingIndependence | actix-codec/src/framed.rs:176-233 | two finished runs over the same bytes deliver the same, however the bytes were cut and whatever was pending or failed |
| FramedRuns.FailuresAreReported | actix-codec/src/framed.rs:213-231 | over a run there are as many I/O errors as failed reads used up |
| FramedRuns.PollTimes | actix-codec/src/framed.rs:288-290 | any number of polls of a transport is a run in the sense of the theorems about runs |
| FramedRuns.UsedCodecIff | actix-codec/src/framed.rs:53-61 | for any limit and any input that begins with bytes, the first poll of a transport with a used codec gives the same answer and leaves the same buffer and input as with a new one, exactly if the old index skips no LF of the first read, or the line up to the first LF of it is too long |
| FramedRuns.FlushConserves | actix-codec/src/framed.rs:236-266 | a flush moves bytes from the buffer to the wire in order, and succeeds only if it moved all |
| FramedRuns.FlushMoves | actix-codec/src/framed.rs:240-258 | a flush moves the lesser of what is buffered and what the outcomes before the first pending, failed or zero one offer |
| FramedRuns.FlushAnswers | actix-codec/src/framed.rs:236-266 | it succeeds if and only if those offers cover the buffer and the I/O object flushes; each other answer is that of the outcome that stopped it |
| FramedRuns.EnoughFlushesEmpty | actix-codec/src/framed.rs:236-266 | more flushes than a script has stops empty the buffer, if its offers cover it |
| FramedRuns.RunSink | actix-codec/src/framed.rs:293-327 | any sequence of sends, sends when ready and flushes of a transport is one in the sense of the theorems about senders |
| FramedRuns.WritesConserve | actix-codec/src/framed.rs:160-266 | wire and buffer together are always the encodings of everything sent, in order, through partial writes, pending attempts and errors |
| FramedRuns.PoliteSenderBound | actix-codec/src/framed.rs:301-311 | a sender that asks first never has more buffered than the high-water mark and one encoded item |
| FramedRuns.EndToEnd | actix-codec/src/framed.rs:160-266 | what is written through any partial writes and read in any chunks comes out as the items sent, if and only if all of them are clean |
| FramedRuns.WillingEndToEnd | actix-codec/src/framed.rs:160-266 | the same for any sender that flushes often enough against an I/O object whose offers cover what is buffered |
| ProtocolProofs.StepKeepsWellFormed | actix-server/src/server.rs:305-335 | every handle leads to a worker of its id, and every fault report names a worker the server knows, so its assertion never fires |
| ProtocolProofs.StepKeepsNext | actix-server/src/accept.rs:401-431 | the index of the next worker is in range whenever there is a worker, and is that of the worker a send goes to |
| ProtocolProofs.StepKeepsConserved | actix-server/src/worker.rs:121-215 | a worker's count is its queued connections, live guards and sends on their way, after every step of any thread |
| ProtocolProofs.StepMovesId | actix-server/src/accept.rs:522-529 | a worker id moves between handles, fault reports, restart and queued replacement, is never doubled, and is lost only when the server gives up on a restart |
| ProtocolProofs.StepKeepsIds | actix-server/src/accept.rs:247-256 | no worker id is in two of those places |
| ProtocolProofs.CoveredStays | actix-server/src/worker.rs:177-184 | a worker at its limit or announced stays so through every step but the accept thread's own pop and undo |
| ProtocolProofs.StepKeepsCapacity | actix-server/src/accept.rs:401-455 | a worker held but not marked available is at its limit or has announced itself, also between the increment and the clearing of its flag |
| ProtocolTheorems.StepKeepsTokens | actix-server/src/worker.rs:121-184 | without dead workers each worker has exactly one token: on offer, one notification on its way, or at its limit |
| ProtocolTheorems.StepKeepsWakeUp | actix-server/src/waker_queue.rs:46-58 | a queue that is not empty has a wake-up pending or coming, or is being drained |
| ProtocolTheorems.StepKeepsChannels | actix-server/src/worker.rs:203-215 | a worker's channel carries exactly the connections sent to it, in order |
| ProtocolTheorems.EveryRunKeepsInv | actix-server/src/accept.rs:192-299 | all of these hold in every state that any interleaving reaches from the start |
| ProtocolTheorems.LimitIsRespected | actix-server/src/worker.rs:117-135 | until a worker dies, no interleaving of sends and guard drops takes a worker above its limit |
| ProtocolTheorems.NoCapacityIsLost | actix-server/src/accept.rs:401-455 | with no worker marked available, each one held is at its limit, is about to notify, or has its notification queued with a wake-up on its way; with or without dead workers |
| ProtocolTheorems.ZeroMeansIdle | actix-server/src/worker.rs:138-140 | a count of zero means nothing queued, nothing active and nothing being sent |
| ProtocolTheorems.CountersStayPositive | actix-server/src/worker.rs:109-141 | the raw counter never drops below one, so no decrement wraps |
| ProtocolTheorems.FaultReportsAreKnown | actix-server/src/server.rs:305-335 | a faulted id is always found in the server's list, and is not held by the accept thread at the same time |
| ProtocolTheorems.DeliveredWereTaken | actix-server/src/accept.rs:457-466 | in every run, whatever is delivered, sent or being placed was taken before from the listener of its token, and there is such a listener |
| ProtocolTheorems.ChannelsHoldWhatWasTaken | actix-server/src/worker.rs:203-215 | every connection in a worker's channel was taken before from the listener of its token |
| ConnectionLimit.LimitHoldsIff | actix-server/src/accept.rs:401-455 | in all runs with at most `d` deaths every worker stays within the limit, if and only if `d` is zero, or there is no worker, or one worker with a limit of one |
| ConnectionLimit.OneOfManyDies | actix-server/src/accept.rs:447-451 | with two workers or more one death is enough: a run of the accept thread forces a connection on a full worker |
| ConnectionLimit.OnlyOneDies | actix-server/src/accept.rs:234-256 | with one worker and a limit above one as well: its replacement is overfilled after a notification of the dead worker |
| ConnectionLimit.SoloRun | actix-server/src/worker.rs:117-135 | with one worker and a limit of one there is one token at any time, whatever dies and is replaced |
| LimitRuns.Fill | actix-server/src/accept.rs:433-484 | while there is room, the accept thread can place any number of connections, and does nothing else to the server |
| Accepting.Accept.constructor | actix-server/src/accept.rs:149-189 | the accept thread starts with every worker marked available, every listener registered, and no deadline |
| Accepting.Accept.Send | actix-server/src/worker.rs:203-215 | counts, then enqueues; the connection comes back and is uncounted exactly if the worker addressed was dead when it was put, and it is |
| Accepting.Accept.SetNext | actix-server/src/accept.rs:443-447 | passes to the following worker in the ring; with no flag left at all, any worker will do from then on |
| Accepting.Accept.RemoveNext | actix-server/src/accept.rs:414-429 | removes the dead worker's handle by swapping, reports its id, clears its flag and keeps the index in range |
| Accepting.Accept.SendConnection | actix-server/src/accept.rs:401-431 | either the worker has the connection and the turn passes on, or its handle is gone and the next index is in range |
| Accepting.Accept.AcceptOne | actix-server/src/accept.rs:433-455 | if every flag belongs to a handle and one is held, the search ends and the connection goes to exactly one worker or no handle is left; without removals it goes to the first available one in cyclic order; and if nobody dies meanwhile it ends exactly when the search on values does, with the same worker |
| Accepting.Accept.ForceOne | actix-server/src/accept.rs:447-451 | with no flag left, workers are tried until one takes the connection or none is left |
| Accepting.Accept.SetTimeout | actix-server/src/accept.rs:330-339 | the timeout becomes the shorter of the two |
| Accepting.Accept.AcceptFrom | actix-server/src/accept.rs:457-484 | afterwards the listener is alert, or no worker is marked available; after a resource error, and only then, it is deregistered with a deadline and the poll has a timeout |
| Accepting.Accept.BackOff | actix-server/src/accept.rs:468-481 | a listener with a resource error is deregistered until 500 ms later, and the poll has a timeout |
| Accepting.Accept.AcceptAll | actix-server/src/accept.rs:494-508 | offers every listener once in rotated order, advances the rotation by one, and leaves every listener alert or no worker marked |
| Accepting.Accept.DeregisterAll | actix-server/src/accept.rs:381-398 | drops every deadline; afterwards a listener is registered if and only if it was and had a deadline |
| Accepting.Accept.RegisterAll | actix-server/src/accept.rs:268-276 | after a resume every listener is registered |
| Accepting.Accept.HandleWaker | actix-server/src/accept.rs:225-299 | handles the interests in order, ends only when the queue is empty or at a stop, leaves the thread paused as the last pause or resume says, stalls nothing, and leaves registrations and deadlines as the ledger of its pauses, resumes, stops and errors says |
| Accepting.Accept.PauseAll | actix-server/src/accept.rs:258-266 | a pause that finds the thread running deregisters every listener without a deadline |
| Accepting.Accept.ResumeAll | actix-server/src/accept.rs:268-280 | a resume that finds it paused registers every listener |
| Accepting.Accept.StopAll | actix-server/src/accept.rs:282-288 | a stop deregisters as a pause does, unless paused |
| Pausing.RegisteredInPauseIff | actix-server/src/accept.rs:258-280 | in a pause a listener is registered if and only if that pause passed it over: a resource error in an earlier pause, a resume, and this pause, with no deadline expired and no error in between |
| Pausing.PauseHushes | actix-server/src/accept.rs:258-266 | a listener without a deadline is deregistered by a pause and stays so until a resume |
| Pausing.NothingInPause | actix-server/src/accept.rs:381-398 | without a resource error in a pause nothing is registered in a pause |
| Accepting.Accept.ProcessTimeout | actix-server/src/accept.rs:301-327 | drops exactly the expired deadlines, registers those listeners unless paused, and leaves the timeout equal to the shortest remaining wait |
| Accepting.Accept.PollOnce | actix-server/src/accept.rs:192-223 | one turn of the event loop, with any batch of events, keeps the thread from stalling and a timeout set while any listener has a deadline; it leaves no deadline that had passed when it began; in a pause exactly those listeners are registered that the pause passed over |
| Accepting.Accept.PollWith | actix-server/src/accept.rs:192-223 | the same for any number of turns; a thread that stops for good really spins or has no worker to index, and it never does if nobody has died, or as `CannotHalt` says of the deaths so far |
| Accepting.Accept.NothingIsStuck | actix-server/src/accept.rs:203-327 | between turns a waiting listener has an event or a deadline with a timeout, or every worker held is at its limit or has announced itself; and a filled queue has its wake-up |
| AcceptSteps.NoneMarked | actix-server/src/accept.rs:434-446 | going once round the ring finds no available worker exactly when none of those held is marked |
| AcceptSearch.SearchEndsIff | actix-server/src/accept.rs:433-455 | the search ends if and only if a live worker is marked, or every flag belongs to a handle, or every handle is marked |
| AcceptSearch.StaleFlagSpins | actix-server/src/accept.rs:443-447 | with a flag set and no handle marked the search goes round for ever |
| AcceptSearch.TriedInStep | actix-server/src/accept.rs:438-451 | an attempt of the code does to the search on values what it does in the code |
| AcceptTheorems.DispatchIsFair | actix-server/src/accept.rs:401-442 | over any number of dispatches with all workers available, and whatever happens between them, no worker gets two connections more than another |
| AcceptTheorems.AllMarkedTakeTurns | actix-server/src/accept.rs:433-442 | with all workers marked, a connection goes to the next handle and the turn moves by one |
| AcceptTheorems.ScanOffersEachOnce | actix-server/src/accept.rs:500-504 | one scan offers each listener exactly once |
| AcceptTheorems.EachListenerGoesFirstOnce | actix-server/src/accept.rs:494-508 | over as many scans as there are listeners, each goes first exactly once |
| StaleFlag.SpinningIsReachable | actix-server/src/accept.rs:433-455 | for every limit above one and two workers or more, a run with one death leads to a search that never ends |
| StaleFlag.PanicIsReachable | actix-server/src/accept.rs:511-513 | for every limit above one and one worker, a run with one death leads to a call of `accept_one` without workers |
| TwoDeaths.TwoDeathsHalt | actix-server/src/accept.rs:433-455 | with a limit of one and two workers or more, a run with two deaths leads to a search that never ends or finds no worker |
| OneDeath.StepKeepsOneDead | actix-server/src/accept.rs:401-455 | with a limit of one and one worker dead, every step keeps: flags and notifications are for workers that are held, the dead one has one token until its handle goes, and nothing is left of it afterwards |
| OneDeath.OneDeathGoesOn | actix-server/src/accept.rs:433-455 | with a limit of one, no run with at most one death stops the accept thread |
| HaltBoundary.GoesOnIff | actix-server/src/accept.rs:433-455 | in all runs with at most `d` deaths the accept thread can go on, if and only if `d` is zero, or there is no worker, or the limit is one and there is one worker or `d` is one |
| AvailabilityWords.OffsetIsBijective | actix-server/src/availability.rs:45-57 | each id below 512 has a bit of its own in the four words, each bit an id, and larger ids panic |
| AvailabilityWords.NonZeroHasBit | actix-server/src/availability.rs:12-14 | a word is not zero exactly when one of its bits is set |
| AvailabilityWords.Availability.GetAvailable | actix-server/src/availability.rs:18-22 | tells whether the id is in the set |
| AvailabilityWords.Availability.SetAvailable | actix-server/src/availability.rs:25-34 | adds or removes exactly that id |
| AvailabilityWords.Availability.SetAvailableAll | actix-server/src/availability.rs:38-42 | adds exactly the ids of the handles |
| AvailabilityWords.Availability.Available | actix-server/src/availability.rs:12-14 | tells whether the set is not empty |
| WorkerServices.Builder.Bind | actix-server/src/builder.rs:277-302 | each listener and its factory get the next token, which is their position |
| WorkerServices.CreateServices | actix-server/src/worker.rs:743-778 | asks the factories in order, and gives what they gave, or the first error or stop request |
| WorkerServices.WrapServices | actix-server/src/worker.rs:780-797 | the assertion on tokens holds, and service `i` is the one factory `i` gave |
| WorkerFuture.ServerWorker.CheckReadiness | actix-server/src/worker.rs:516-556 | asks every service in order, also behind one that is not ready, up to the first that fails; each takes the status it answered; "ready" means that all answered so; a failure names the service that failed |
| WorkerFuture.ServerWorker.RestartService | actix-server/src/worker.rs:492-501 | exactly the named service is restarting |
| WorkerFuture.ServerWorker.MarkStopping | actix-server/src/worker.rs:503-514 | marks exactly the available services |
| WorkerFuture.ServerWorker.HandleStop | actix-server/src/worker.rs:606-629 | a worker with a count of zero ends with the answer true, one that is forced with the answer false, and a graceful request starts the shutdown; exactly the available services are marked |
| WorkerFuture.ServerWorker.Total | actix-server/src/worker.rs:138-140 | the count is what is queued, active and being sent, so zero means that nothing is |
| WorkerFuture.ServerWorker.AwaitReadiness | actix-server/src/worker.rs:632-642 | becomes available only right after all services were found ready |
| WorkerFuture.ServerWorker.PollRestart | actix-server/src/worker.rs:644-667 | waits while the factory is pending, then replaces exactly the failed service by a new build of the same factory, and the assertion on its token holds; a failed restart panics |
| WorkerFuture.ServerWorker.PollShutdown | actix-server/src/worker.rs:669-701 | drops everything queued and dispatches nothing; it is pending if and only if the timer has not elapsed, or connections are left and the timeout has not; otherwise it ends with an answer, and "true" only with nothing queued, active or being sent |
| WorkerFuture.ServerWorker.DropGuard | actix-server/src/worker.rs:177-184 | its first action takes one off the count, and if the worker was at the limit, its notification is queued after that and a wake-up sent after the notification, with others acting in between |
| WorkerFuture.ServerWorker.Dispatch | actix-server/src/worker.rs:704-734 | every connection is preceded by a check that found all services ready, goes to the service of its listener's factory, and in the order of arrival; it goes on until the channel is empty or a service is not ready |
| WorkerFuture.ServerWorker.PollWorker | actix-server/src/worker.rs:603-736 | the same for every poll in every state: it is pending only with the channel empty, with a service not ready, with a restart pending, or in a shutdown before its end; a stop request is heeded at once; it panics if and only if a restart failed; however it ends, what the worker took from its channel is what it dispatched or dropped, in order |
| WorkerFuture.RunWorker | actix-server/src/worker.rs:598-737 | over any life of a worker, with polls, stop requests and others in between, also one that ends or panics: every dispatch follows its check and goes to the service of the factory of the listener the connection was taken from, nothing taken is lost or reordered, a worker ends only with an answer, "idle" only if it is, and drops nothing unless told to stop; after its last poll it waits for something |
| WorkerServices.LogMeans | actix-server/src/worker.rs:704-734 | in a log kept by the worker, every dispatch comes right after a check that found all services available and goes to the service built by the factory of its listener, and the answer "idle" is given only with nothing queued, active or being sent |
| WorkerServices.AgreeMeansOneRestart | actix-server/src/worker.rs:571-576 | at most one service is restarting, and outside of a shutdown it is the one the state names |
| Joining.JoinAll.Poll | actix-server/src/join_all.rs:34-65 | polls every future that still runs once and no other, and in the end hands out each future's own answer, in input order |
| Joining.RoundPollsEach | actix-server/src/join_all.rs:38-47 | the new polls are those of the futures that run, once each and in order |
| Joining.RoundKeepsAnswers | actix-server/src/join_all.rs:38-47 | each slot takes the answer of its own future, or stays |
| LocalWake.LocalWaker.Register | local-waker/src/lib.rs:43-61 | the slot holds the waker given last; tells whether one was there |
| LocalWake.LocalWaker.Wake | local-waker/src/lib.rs:67-71 | wakes the last task registered, once, and empties the slot |
| LocalChannel.Channel.Send | local-channel/src/mpsc.rs:56-68 | accepted exactly while the channel is open; wakes a waiting receiver |
| LocalChannel.Channel.Close | local-channel/src/mpsc.rs:74-78 | nothing can be sent any more, what is buffered stays, and a waiting receiver is woken |
| LocalChannel.Channel.NewSender | local-channel/src/mpsc.rs:169-173 | a new sender changes nothing else, also when it is the first again |
| LocalChannel.Channel.DropSender | local-channel/src/mpsc.rs:110-121 | the last sender to go wakes a waiting receiver |
| LocalChannel.Channel.PollNext | local-channel/src/mpsc.rs:182-198 | hands out the oldest message, ends exactly when none is buffered and none can come, and otherwise has the waker in place; after close and drain the end is permanent |
| LocalChannel.Channel.DropReceiver | local-channel/src/mpsc.rs:201-207 | discards the buffer and closes the channel |
| LocalChannel.RunChannel | local-channel/src/mpsc.rs:53-207 | over every program: received and buffered are what was accepted, in order, and a receiver that waits has its waker in place and nothing buffered |
| TaskCounter.Counter.Dec | actix-utils/src/counter.rs:54-60 | the drop from the capacity wakes the task in the slot, and no other drop wakes one |
| TaskCounter.Counter.Available | actix-utils/src/counter.rs:62-69 | true exactly below capacity; otherwise the task takes the slot |
| TaskCounter.CountIsGuards | actix-utils/src/counter.rs:49-60 | the count is that of the guards created less those dropped |
| TaskCounter.WokenIff | actix-utils/src/counter.rs:49-70 | over any operations that make no room: the next drop that does wakes one task, which is a given waiting task if and only if no other was told to wait after it |
| TaskCounter.RunCounter | actix-utils/src/counter.rs:14-70 | over any program the counter is what these operations make of it |
| SystemStop.RegisteredMeans | actix-rt/src/system.rs:347-353 | an arbiter is known if and only if it has registered and not deregistered since |
| SystemStop.StepKeepsInv | actix-rt/src/system.rs:325-357 | every `Exit` sends a stop to the arbiters registered before it and to no others, lost only on one that has ended; the registry and the code are what the commands say |
| SystemStop.EveryRunKeepsInv | actix-rt/src/system.rs:283-357 | the same in every state of every interleaving |
| SystemStop.FirstExitWins | actix-rt/src/system.rs:335-345 | the code observed is that of the first `Exit`, in every run |
| SystemStop.FirstExitIs | actix-rt/src/system.rs:335-345 | that is the code of the first `Exit` among the commands sent, whatever comes behind it |
| SystemStop.OnwardRun | actix-rt/src/system.rs:342-344 | a code once observed never changes |
| SystemStop.StopReachesEveryArbiter | actix-rt/src/arbiter.rs:183-205 | an arbiter whose constructor returned before an `Exit` was sent is stopped by it, or has ended; and once its queue is worked off it has ended |
| SystemStop.CodeComesAfterTheStops | actix-rt/src/system.rs:335-345 | whoever observes the code does so after every registered arbiter was sent its stop or had ended |
| SystemStop.SpawnsWhatCameBeforeTheStop | actix-rt/src/arbiter.rs:321-340 | an arbiter spawns exactly the tasks queued before its first stop, in order |
| SystemStop.TasksBeforeStopAre | actix-rt/src/arbiter.rs:321-340 | those are all tasks up to the first stop, in order, whatever comes behind it |
| SystemStop.LateArbiterRunsOn | actix-rt/src/system.rs:347-349 | an arbiter that registers after the `Exit` gets no stop and runs on |
| SystemStop.SystemController.StopAll | actix-rt/src/system.rs:336-339 | sends a stop to every registered arbiter, in any order, with others acting in between |
| SystemStop.SystemController.Announce | actix-rt/src/system.rs:341-345 | sets the code the first time and never again |
| SystemStop.SystemController.Poll | actix-rt/src/system.rs:325-357 | works off the channel, and all it does is a run of the protocol |
| SystemStop.ArbiterRunner.Poll | actix-rt/src/arbiter.rs:321-340 | spawns the tasks before the first stop in order, ends exactly if there is one, and leaves what is behind it |
| Combinators.Executor.PollResponse | actix-service/src/and_then.rs:103-117 | the loop over the states of a response future does what the recursion over the chain does |
| Combinators.PollIsLinePoll | actix-service/src/and_then.rs:103-117 | a chain of one kind polls and calls its leaves as the flat list of its leaves does, however it is bracketed |
| Combinators.PollGetsOn | actix-service/src/and_then.rs:103-117 | one poll of a chain of one kind polls the leaf that runs, calls each next leaf with the answer of the one before and polls it, and stops at the first that is pending, at the last, and with `and_then` at an error |
| Combinators.PollPassesOn | actix-service/src/then.rs:96-109 | in a chain of any kinds every call in a poll passes on the answer just given, is followed by a poll, and the last answer is that of the chain |
| Combinators.BracketsDoNotMatter | actix-service/src/then.rs:96-109 | two bracketings of the same leaves make the same calls and polls in the same order at every poll, and give the same answers |
| Combinators.ChainsAreAssociativeIff | actix-service/src/and_then.rs:56-117 | for any services, whatever chains they are: `a.k1(b).k2(c)` and `a.k1(b.k2(c))` make the same calls and polls and give the same answers for all leaves and all that others do, if and only if not k1 is `and_then` and k2 is `then` |
| Combinators.OnlyOneGoesOn | actix-service/src/then.rs:96-109 | when all leaves fail, `a.and_then(b).then(c)` calls c and `a.and_then(b.then(c))` does not, for any services |
| Combinators.NothingIsPolledAgain | actix-service/src/and_then.rs:103-117 | in a chain of any kinds no leaf future is polled before it exists or after it was ready |
| Combinators.ReadinessIsThatOfTheLeaves | actix-service/src/and_then.rs:46-54 | the leaves are asked in order up to the first that fails; otherwise all are asked, also behind one that is pending, and the chain is ready exactly when all are |
| Combinators.BuildIsFillEach | actix-service/src/and_then.rs:220-241 | a factory future polls exactly the leaf futures that have not made their service, in order up to the first failure, and is done exactly when all are made |
| Combinators.FillEachPolls | actix-service/src/and_then.rs:220-241 | such a round polls the open futures in order, all of them unless one fails, which is then the last |
| Combinators.FillEachFills | actix-service/src/and_then.rs:220-241 | without a failure each takes the service its own future gave, or stays open |
| Combinators.CreateEachIs | actix-service/src/and_then.rs:164-172 | creating a factory's future creates those of its leaves, once each and in order |
| Combinators.FactoryBracketsDoNotMatter | actix-service/src/then.rs:151-236 | factories with the same leaves make and poll the same leaf futures in the same order, and give services with the same leaves |
| Combinators.ServicesGiven | actix-service/src/and_then.rs:220-241 | two factories with the same leaves, of any kinds, give services at the same polls with the same leaves, each put together as its factory is |
| Combinators.FactoriesGiveLikeServices | actix-service/src/then.rs:151-236 | the services that two bracketings of one kind give cannot be told apart |
| Combinators.FactoryChainsAreAssociativeIff | actix-service/src/and_then.rs:184-241 | for any factories: the services that `a.k1(b).k2(c)` and `a.k1(b.k2(c))` give cannot be told apart, if and only if not k1 is `and_then` and k2 is `then` |
| Combinators.NoFactoryFutureIsPolledAgain | actix-service/src/and_then.rs:220-241 | no leaf factory future is polled after it was ready |

## Left out

- Sockets, mio, the kernel and TLS: a listener is a backlog count with an edge flag and a
  registration, and registering reports readiness that is already there.
- Errors of registering and deregistering a listener, which the source only logs, and poll errors.
- Signals, the System runner, macros, tracing, byte strings, and the `map`, `map_err`, `apply` and boxed
  wrappers: glue, or one-step facts.
- UTF-8 validation is a parameter; all that is used of it is that the empty string is valid.
- Relaxed memory: atomic read-modify-write operations, mutex sections and channel operations are
  atomic steps.
- A connection limit of the machine maximum, which `checked_add` treats as no limit; connection
  counts do not wrap.
- Scripts and schedules are finite: an I/O object, a service or a timer whose script has run out is
  pending for ever, and other threads then do nothing more.
- Whether a worker's poll ends when its services alternate for ever: every poll of the model uses up
  answers of finite scripts.
- The start of a server: waiting for the workers' reports, and stopping them when one fails.
- While the queue is drained, the protocol lets the accept thread serve listeners in any order; the
  order of the code, each once in rotation, is in `Accepting.Accept.AcceptAll`.
- The completion of a server stop: waiting for workers and for the accept thread.
- The value of `Instant::now`: the clock is a number that others move forward.
- Arbiters whose thread panics, and channels whose senders are all gone: each arbiter's thread holds a
  sender of its own channel and of the system's.
- Conversions of a transport to another codec or I/O object, which rebuild the struct.
- The accept thread's availability flags are a set of ids in `Accepting.dfy`; that the four words are
  such a set is proved on its own in `AvailabilityWords.dfy`.
- The combinators are values with polls as functions, not traits over pinned futures, and leaf
  results are numbers; nothing depends on what they are.
- FramedTransport.Framed.Write: encoding cannot fail, as it cannot in the lines codec.
- WorkerFuture.ServerWorker.PollShutdown: a timer that was just set for a second later has not elapsed.
- Accepting.Accept.AcceptOne: where the search of the source never returns, the model returns `Spins`,
  and where it indexes an empty vector, `Panics`.
- Joining.JoinAll.Poll: says nothing about polls after the future was ready.
