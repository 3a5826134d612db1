# A verified model of the mach5 proxy

Each module models one part of the proxy and proves what that part is for.
`dafny verify dfyconfig.toml` checks everything.

| part of the proxy | modules |
|---|---|
| ClientHello reassembly, the server name in it, the loop that peeks at a socket | `Records`, `ServerName`, `HelloWriter`, `Peek` |
| the HTTP/3 response path: room, workers, the shared channel, the event loop, partial writes | `Budgets`, `Delivery`, `Pump`, `ResponsePath`, `Results` |
| uploads: the bounded channel, parked chunks, the reader | `RequestBody`, `UploadPump` |
| how fast a client is: smoothing, the tier ladder, the store, the drain window | `Link`, `Drain` |
| files under concurrency and a budget | `Replace`, `Sweep` |
| host names, cosmetic rules, content codings, the element picker, fetched lists | `Host`, `Cosmetic`, `Headers`, `Encoding`, `Picker`, `Refresh` |

What the source does step by step is a method, with the source's own loops and
fields, proved equal to a function of the inputs or of the old state; what the
source promises is proved about that function, or about every run of a state
machine whose steps interleave the threads and the outside world.

`HelloWriter` is no part of the proxy. It writes ClientHellos and their record
framing as section 4.1.2 and section 5.1 of RFC 8446 and section 3 of RFC 6066
lay them out, independently of the parser, so that reading can be proved to
undo writing, and so that no name is read that was not written.

## Where the code does less than it says

The model follows the code; the lemma named gives the exact condition, or an
input for which the code falls short, or both.

- A hello that is complete can be taken back: a later record header claiming
  more than 2^14 bytes makes `assemble` answer nothing at all
  (`Records.CompleteStaysCompleteIff`, `Records.CompleteCanBeTakenBack`).
- Uploads can be reordered: a take by the worker in the middle of a pass lets a
  chunk just read overtake parked ones, against the comment that what follows a
  parked chunk queues behind it (`UploadPump.OrderSurvivesIff`,
  `UploadPump.ATakeInsideAPassReorders`).
- A failed read of the stream, or a connection removed from the table, drops the
  sender without the abort flag, and a cut-off upload then reads as a whole one
  (`RequestBody.ADropTruncatesIff`, `RequestBody.SilentDropTruncates`).
- The guard against a second response on a stream stops its head only; chunks
  and an end already sent behind that head land on the first response
  (`Results.MixedExactlyWhen`, `Results.SecondJobEndsTheFirst`).
- With a coding we know in the first content-encoding field and another coding
  in a later one, decoding forgets the second (`Encoding.SecondCodingIsLost`).
- Only the first accept-encoding field of a request is read, and gzip in it only
  by that name, so a coding that a later field refuses, or gzip refused as
  x-gzip, can be applied (`Encoding.ChosenIsWelcomeIff`,
  `Encoding.ALaterRefusalIsMissed`, `Encoding.AnAliasRefusalIsMissed`).
- What a failed put leaves behind, a body without metadata or a temporary that
  cannot be removed, is never counted towards a sweep
  (`Sweep.PutStaysBoundedIff`, `Sweep.AStuckBodyEscapesTheCount`).
- A drain window measures its first queue before the hand-over that opens it and
  its time from after it, so what the client takes in between counts although
  the time does not, as it must when the queue is full: a slow client can be
  reported at twice its speed (`Drain.DrainIsWhatTheClientTook`,
  `Drain.FullQueueOpensLate`, `Drain.ASlowClientReadsTwiceAsFast`). With chunks
  of different sizes the mean misjudges too (`Drain.FigureIsExactIff`).
- A cosmetic rule whose named domains cannot be read is dropped, except where an
  exclusion stands beside them: then, with generic rules switched on, it applies
  to every site but the excluded ones (`Cosmetic.WidenedIff`,
  `Cosmetic.AnUnreadNameHidesEverywhere`).
- For an element outside `body` the picker can answer with a selector that names
  another element (`Picker.OutsideTheBodyAnotherIsNamed`); `exact` is not
  checked for uniqueness, so an element at the same path in a second `body`, or
  a tag such as `o:p`, defeats it (`Picker.ExactNamesOne`,
  `Picker.TwoBodiesTwoElements`); `Picker.PickedNamesOne` has the whole
  condition.
- A tabbed comment with a later space before another `#` in it makes a list
  line lose its host (`Refresh.CutAtTheCommentIff`,
  `Refresh.ATabbedRemarkLosesTheHost`).
- A failed fetch can take a host off: it reads the copy on disk, which is an
  older one if the last body could not be stored (`Refresh.LastUsableTextCounts`,
  `Refresh.AFailedFetchKeepsIff`, `Refresh.AFailedFetchDropsAHost`).
- A refresh keeps a list's hosts when its next body is unusable, but that body
  has already replaced the copy on disk, so a restart loses them
  (`Refresh.RestartKeepsIff`).

## Model

| member | source | states |
|---|---|---|
| Records.AssembleRecords | proxy/src/passthrough.rs:756-797 | the loop over record headers computes the handshake bytes, where it stopped and what it waits for, and nothing for an over-long record |
| Records.PrefixGrows | proxy/src/passthrough.rs:756-797 | of two reads of one stream the later one's handshake bytes extend the earlier one's, and a pending record of the earlier is met or still pending |
| Records.WantNeverOverAsks | proxy/src/passthrough.rs:690-744 | no extension of the bytes shorter than the length asked for is complete |
| Records.WantIsTheLeast | proxy/src/passthrough.rs:712-743 | what is asked for is the least that holds the record now arriving, or a header, and all the message is known to lack |
| Records.CompleteExactlyWhen | proxy/src/passthrough.rs:690-732 | a hello is complete exactly when the joined records hold all of the message, and "not TLS" exactly for another first byte or an over-long record |
| Records.WantAsksForMore | proxy/src/passthrough.rs:690-744 | a wait asks for more than is held unless a full header of another content type follows |
| Records.CutOffForGood | proxy/src/passthrough.rs:763-767 | a hello cut off by another content type never completes |
| Records.OversizedIsRefused | proxy/src/passthrough.rs:770-775 | assembling answers nothing exactly when a handshake header claiming over 2^14 bytes is reached |
| Records.CompleteStaysCompleteIff | proxy/src/passthrough.rs:770-775 | a complete hello stays complete under more bytes exactly when no such header is reached, and otherwise turns into "not TLS" |
| Records.CompleteCanBeTakenBack | proxy/src/passthrough.rs:770-775 | bytes whose prefix is complete and which as a whole are "not TLS" |
| ServerName.Reader.Take | proxy/src/passthrough.rs:874-890 | the cursor hands out the next bytes and moves past them, or answers nothing and stays |
| ServerName.ReadServerName | proxy/src/passthrough.rs:807-845 | the parser's answer is the name the specification finds in the assembled handshake |
| ServerName.ReadExtensions | proxy/src/passthrough.rs:831-845 | the walk over extensions answers with the first server_name extension, and nothing past a malformed one |
| ServerName.ReadFirstHostName | proxy/src/passthrough.rs:849-870 | the walk over the list answers with its first host name as the specification spells it, and nothing if that is not ASCII |
| HelloWriter.MessageRead | proxy/src/passthrough.rs:807-870 | reading any written hello gives the host of its first server_name extension in lower case, whatever its session, ciphers, compression and other extensions |
| HelloWriter.TheHostInLowerCase | proxy/src/passthrough.rs:849-870 | byte by byte: 65 to 90 become 97 to 122, every other byte of the host stays, and there is no answer exactly when one is 128 or more |
| HelloWriter.NameSurvivesFraming | proxy/src/passthrough.rs:690-845 | any hello cut into any handshake records of at most 2^14 bytes is complete and gives that host |
| HelloWriter.FramingDoesNotMatter | proxy/src/passthrough.rs:746-797 | any two framings of one hello give the same name |
| HelloWriter.NameIsNeverInvented | proxy/src/passthrough.rs:807-870 | a name the parser answers was written, whole and in its place, in a hello that starts the bytes |
| Peek.PeekServerName | proxy/src/tcp.rs:933-987 | the peek loop over growing prefixes computes the answer for the schedule of arrivals |
| Peek.IncompleteHasNoName | proxy/src/passthrough.rs:690-845 | bytes that are not a complete hello give no name |
| Peek.AnyCompletePrefixesAgree | proxy/src/passthrough.rs:690-845 | any two complete prefixes of one stream give the same name |
| Peek.NoScheduleChangesTheName | proxy/src/tcp.rs:933-987 | no schedule of arrivals makes the loop answer with another name |
| Peek.NoHelloNoName | proxy/src/tcp.rs:933-987 | a stream with no whole hello within the buffer gets none |
| Peek.WhatTheLoopAnswers | proxy/src/tcp.rs:933-987 | for any schedule and a hello that fits the buffer: nothing until a peek sees all of it, then its name, unless that peek also sees a misfit header behind it |
| Peek.EveryScheduleDelivers | proxy/src/tcp.rs:933-987 | every schedule that reaches the end of a hello fitting the buffer, with no misfit header in the buffer's reach, answers with its name |
| Peek.EveryScheduleDeliversIff | proxy/src/tcp.rs:933-987 | and that condition is exact: with such a header in reach, a schedule that sees it all at once answers nothing |
| Peek.NameReachesTheCaller | proxy/src/tcp.rs:933-987 | written in any framing that fits the buffer, followed by anything but more handshake, arriving in any pieces, a hello is named |
| Peek.OneRecordNeverOutgrowsThePeek | proxy/src/passthrough.rs:37-46 | at no moment does a one-record hello ask for more than the peek buffer holds |
| Budgets.Budget.ClaimRoom | proxy/src/budget.rs:76-130 | the wait loop computes the new state and outcome for any wakes, releases, closes and timeouts while it sleeps |
| Budgets.GrantedFits | proxy/src/budget.rs:84-130 | room is granted only on an open budget, to a chunk that fits or is alone |
| Budgets.RoomIsGiven | proxy/src/budget.rs:84-129 | on an open budget a chunk that fits, or finds nothing queued, is granted at once, whatever wakes there would be |
| Budgets.WaitsOnlyWithoutRoom | proxy/src/budget.rs:84-129 | a claim still waits only on an open budget with something queued that it would not fit beside |
| Budgets.ClosedStaysClosed | proxy/src/budget.rs:84-147 | a claim is refused exactly when the budget ends up closed, and on a closed one at once |
| Budgets.GivesUpOnlyWhenStalled | proxy/src/budget.rs:96-120 | unless someone closes it, a refusal means one whole sleep in which the wrapping progress counter stood still |
| Budgets.SlowIsNotStalled | proxy/src/budget.rs:96-120 | with fewer than 2^64 releases a sleep, a refusal means a whole window without one release |
| Budgets.RefusedIffStalled | proxy/src/budget.rs:96-120 | unless someone closes it, a claim is refused if and only if some sleep stalls and the queue was full at every check up to it |
| Budgets.StallEndsTheClaim | proxy/src/budget.rs:96-120 | a stalled sleep on a queue full until then does end the claim, whatever was given back before |
| Delivery.BodyKeepsFaith | proxy/src/main.rs:1492-1510 | a write of any length sends the next bytes of the plan, leaves fewer unsent, and gives back exactly the popped chunk |
| Delivery.HeadersKeepFaith | proxy/src/main.rs:1450-1490 | sending the head keeps the response equal to the plan, a measured content-length included |
| Delivery.HeadSaysTheLength | proxy/src/main.rs:1450-1490 | the head says the queued length exactly when no more is to come, the status is at least 200 and neither 204 nor 304, and no header of any spelling is a content-length; the fin rides on it exactly for a complete empty body |
| Pump.Response.SendHeaders | proxy/src/main.rs:1450-1490 | one head, with a measured content-length exactly where one belongs, and the fin on it only for an empty complete body |
| Pump.Response.SendPending | proxy/src/main.rs:1445-1527 | the sending loop computes the new queue, wire and budget for any answers of the transport |
| Pump.PassKeepsFaith | proxy/src/main.rs:1445-1527 | one pass, however the transport answers, keeps the wire plus the queue equal to what the worker sent, and room given back equal to the pieces gone |
| Pump.PassCompletes | proxy/src/main.rs:1445-1527 | when every write is accepted in part, as many calls as there is left to send finish the response, whole |
| ResponsePath.StepKeepsInv | proxy/src/main.rs:554-587 | every step of worker, channel, event loop, transport, dying connection and clock keeps the invariant of all jobs |
| ResponsePath.DeliveryIsExact | proxy/src/main.rs:868-938 | in every run the client sees one head first, a prefix of the body in order, one fin only after all of it, and a content-length equal to the body's length, on every whole response that may be measured and on none that may not |
| ResponsePath.RoomIsConserved | proxy/src/budget.rs:84-138 | in every run, on an open budget, the room taken is the room of the pieces in hand, in the channel and queued, and exceeds the limit only for one piece alone |
| ResponsePath.NoWorkerIsOrphaned | proxy/src/main.rs:146-154 | in every run a parked worker's budget is closed, held by a live response, or carried by a result in the channel; not yet woken, it has pieces ahead of it beside which its own would pass the limit |
| ResponsePath.ClosedForGood | proxy/src/budget.rs:84-147 | no step reopens a budget and no claim on a closed one succeeds |
| ResponsePath.GivingUpTakesAWholeWindow | proxy/src/budget.rs:96-120 | a worker closes its own budget only after a whole stall window in which nothing was given back |
| ResponsePath.WhoCloses | proxy/src/main.rs:868-929 | otherwise a budget is closed only for a dead connection, a failed write, a finished response or a result nobody takes |
| ResponsePath.ClaimStepsAreTheLoop | proxy/src/budget.rs:76-130 | claiming, sleeping and waking step by step settles the claim as the loop over the condition variable does |
| ResponsePath.SleepsExactlyWhen | proxy/src/budget.rs:84-100 | a worker goes to sleep exactly when something is queued on an open budget that its piece would not fit beside |
| ResponsePath.OthersAreASleep | proxy/src/budget.rs:132-147 | whatever everyone else does while a worker sleeps is, to its budget, some releases and perhaps a close |
| ResponsePath.CompleteResponsesProgress | proxy/src/main.rs:1445-1527 | a complete response always has a write to make, and what is left shrinks with each |
| ResponsePath.PassIsARun | proxy/src/main.rs:1429-1527 | one pass of the sending loop is a run of the state machine's write steps |
| ResponsePath.RoundIsARun | proxy/src/main.rs:1429-1443 | the pass over all of a connection's responses is a run too: each is served by its own answers, those done or failed go and let their workers go, no other changes |
| Results.EventLoop.Attach | proxy/src/main.rs:868-938 | one result of the channel changes the queues and closes budgets as the specification says |
| Results.OneResponsePerStream | proxy/src/main.rs:880-896 | no stream ever has two responses, and a result touches no other stream |
| Results.DrainingIsDelivery | proxy/src/main.rs:868-938 | with one job to a stream, draining the channel into the per-connection lists is that many delivery steps of the response path |
| Results.LosingIsDying | proxy/src/main.rs:419-427 | removing a connection is the response path's step for its death |
| Results.MixedExactlyWhen | proxy/src/main.rs:886-936 | another job's response changes exactly under a chunk, or an end not yet seen, of a job that does not own the stream |
| Results.SecondJobEndsTheFirst | proxy/src/main.rs:886-936 | a refused second job's chunk and end complete the first job's response with bytes that are not its own |
| RequestBody.Reader.Read | proxy/src/body.rs:98-126 | one read fills the front of the buffer with the next bytes, leaves the rest of it alone, and reports the end, the abort or the wait as the specification does |
| RequestBody.ReadToCap | proxy/src/body.rs:134-153 | the loop returns the whole body, or that it is too large, cut off, or not yet ended |
| RequestBody.WholeOrRefused | proxy/src/body.rs:98-153 | without empty chunks a finished body is returned whole, refused for its size, or reported cut off |
| RequestBody.EmptyChunkPassesForTheEnd | proxy/src/body.rs:98-153 | an empty chunk would pass for the end of the body |
| RequestBody.ReadsAreTheChunks | proxy/src/body.rs:98-126 | over every run reads return the chunk bytes in order, and the end is reported only with all delivered, the sender gone, and no abort before that |
| RequestBody.TruncatesIff | proxy/src/body.rs:98-126 | a body whose sender is gone can be read as ended without being what was meant if and only if the flag is not up and bytes are missing |
| RequestBody.ADropTruncatesIff | proxy/src/body.rs:38-58 | after any run, dropping the sender lets some reader take a cut-off body for the whole if and only if the flag is not up and something has not arrived |
| RequestBody.TruncationIsTold | proxy/src/body.rs:38-58 | so if an abort precedes every early drop, a body reported as ended is the whole one |
| RequestBody.SilentDropTruncates | proxy/src/main.rs:1284-1289 | after any run, an early drop without the flag has a reader that is told the end of a shortened body |
| UploadPump.Upload.Flush | proxy/src/main.rs:1243-1262 | parked chunks move to the channel in order until it is full |
| UploadPump.Upload.PumpUpload | proxy/src/main.rs:1235-1315 | a pass nobody takes from keeps channel, parked chunks and unread stream in order, parks less than the cap and one read, and is a run of the moves below; it reads until the reader is gone, the stream fails or is drained, or there is no room, drops the upload exactly for a failed stream, a gone reader, or a finished and drained one with nothing parked, and keeps it otherwise |
| UploadPump.OrderSurvivesIff | proxy/src/main.rs:1235-1315 | with takes anywhere, a run keeps stream order exactly when no chunk just read was sent past a parked one |
| UploadPump.QuietPassesKeepOrder | proxy/src/main.rs:1235-1315 | no take inside a pass is enough |
| UploadPump.StreamReachesTheReader | proxy/src/body.rs:98-126 | over any run of passes, reads, flag and drop with no take inside a pass, the reader gets the stream's bytes in the stream's order and, told of the end, all but what was still parked |
| UploadPump.ATakeInsideAPassReorders | proxy/src/main.rs:1243-1300 | a run in which one take inside a pass puts chunk 17 ahead of chunk 16 |
| Link.Clamp | proxy/src/link.rs:139-155 | each floor becomes the lowest of those up to it |
| Link.ClampedDescends | proxy/src/link.rs:139-155 | so the ladder descends, and one that did is unchanged |
| Link.FasterIsNoWorse | proxy/src/link.rs:157-166 | a faster estimate never earns a worse tier |
| Link.Links.RecordAt | proxy/src/link.rs:230-282 | a sample updates an entry seen within the lifetime, or replaces any other at face value and trims the store; zero and a disabled store change nothing |
| Link.Links.Bound | proxy/src/link.rs:313-335 | at most the maximum stays; expired entries go first, then only entries seen no later than every one kept |
| Link.UpgradesArePaidFor | proxy/src/link.rs:230-282 | over any samples three times the upgrades plus the count held never exceeds the samples taken |
| Link.DoubtStartsOver | proxy/src/link.rs:243-266 | a sample whose estimate, less a fifth, earns no better tier sets the count to nothing |
| Link.UpgradesTakeThreeInARow | proxy/src/link.rs:79-82 | over any run a tier gets better only at the third sample in a row to argue for it from that tier, and then to what the estimate earns less a fifth |
| Link.ThreeInARowUpgrade | proxy/src/link.rs:243-266 | and three in a row are enough |
| Link.DowngradesAtOnce | proxy/src/link.rs:243-266 | after any sample the tier is no better than the estimate earns, and a worse one is taken at once |
| Link.GapAfterOne | proxy/src/link.rs:337-347 | one sample halves a gap from above and leaves three quarters of one from below, rounded up |
| Link.EstimateConverges | proxy/src/link.rs:337-347 | any estimate settles within 97 equal samples, within three of the sample, and stays |
| Link.TierConverges | proxy/src/link.rs:230-282 | within a hundred equal samples the tier is fixed between what the estimate and four fifths of it earn |
| Drain.Meter.Push | proxy/src/tcp.rs:840-860 | a chunk opens, extends or abandons the window as the specification says |
| Drain.Meter.Report | proxy/src/tcp.rs:862-879 | the figure reported is the specification's, or none below the time and byte floors |
| Drain.FromDrainExactlyWhen | proxy/src/link.rs:361-371 | a figure is a rate exactly from 250 ms and 16384 bytes on, at eight bits a byte over the time, if that is a positive 32-bit number |
| Drain.RateExactlyWhen | proxy/src/tcp.rs:862-879 | and is reported exactly from an open window half a second old or more |
| Drain.FigureIsExactIff | proxy/src/tcp.rs:724-737 | in any interleaving, with chunks of any sizes, a reportable window holds no chunk that found the queue empty, and its figure is the bytes taken from its start to its last chunk if and only if what its mean chunk misjudges makes up for what was taken outside that time |
| Drain.DrainIsWhatTheClientTook | proxy/src/tcp.rs:832-879 | with chunks of one size the figure is all the client took since the queue was first measured, and what it took in the window's own time if and only if nothing was taken while the window opened or after its last chunk |
| Drain.FullQueueOpensLate | proxy/src/tcp.rs:724-733 | a window that opens on a full queue counts a chunk taken before it started |
| Drain.ASlowClientReadsTwiceAsFast | proxy/src/tcp.rs:724-737 | a run in which a client that took 65536 bytes in the window's second is reported at 1048 kbps for 524 |
| Replace.StepKeepsInv | proxy/src/disk.rs:11-82 | every step of any writers, failures and deletions keeps what names, inodes and writers owe each other |
| Replace.NoReaderSeesATear | proxy/src/disk.rs:28-41 | in every run a published name is no inode being written, and shows its first content or all of one finished write to it |
| Replace.PublishedBytesNeverChange | proxy/src/disk.rs:28-41 | an inode once published never changes, whatever becomes of its name |
| Replace.FileSystem.ReplaceFile | proxy/src/disk.rs:28-41 | one call is a run of those steps, ending with all the bytes published, or with an error and every published name showing what it did; no other name changes, and no temporary is left but one that refuses to be removed |
| Sweep.Directory.SweepTo | proxy/src/disk.rs:43-82 | the sweep leaves the files the specification leaves, whatever refuses to go |
| Sweep.SweepMeetsTheBudget | proxy/src/disk.rs:43-82 | with every removal succeeding the budget is met by the shortest oldest-first prefix |
| Sweep.DoomedOrMet | proxy/src/disk.rs:60-82 | whatever refuses to go, the budget is met or all that could go has gone |
| Sweep.DoomedAreTheOldest | proxy/src/disk.rs:60-82 | whatever refuses to go, those deleted are the first in order of last use that do not, no more than it takes and no fewer |
| Sweep.SweptOrStuck | proxy/src/disk.rs:43-82 | what a sweep leaves is within the budget or weighs just what refuses to go, and never less than that |
| Sweep.Cache.Keep | proxy/src/httpcache.rs:422-455 | a put writes body and metadata, each beside itself first, cleans up after a write that fails, takes the body back when the metadata fails, counts the bytes and sweeps when they reach the limit, whatever files refuse to be removed |
| Sweep.PutHolds | proxy/src/httpcache.rs:422-455 | which files are there after a put, file by file, for every way it can fail, and that it sweeps exactly when the count comes to the limit |
| Sweep.LimitIsAnEighth | proxy/src/httpcache.rs:386-386 | the limit is an eighth of the budget, and one byte at least |
| Sweep.PutStaysBoundedIff | proxy/src/httpcache.rs:422-455 | one put keeps the bytes below the budget and an eighth of it, at least one, if and only if a temporary or a body left behind by a failed write fits beside the rest, and the files a sweep could not remove fit by themselves |
| Sweep.EveryRunIsAccounted | proxy/src/httpcache.rs:386-451 | after any run of puts, whatever fails and whatever refuses to go, the bytes held are below that bound and the bytes that escaped the count |
| Sweep.EveryRunStaysBounded | proxy/src/httpcache.rs:386-451 | with every removal succeeding they are below that bound after every put |
| Sweep.OpeningIsAccounted | proxy/src/httpcache.rs:389-411 | opening the cache starts that account, at nothing when every removal succeeds |
| Sweep.WhatIsLeftEscapesTheCount | proxy/src/disk.rs:34-41 | whatever a failed put leaves behind goes uncounted, and as much of it as that passes any bound |
| Sweep.AStuckBodyEscapesTheCount | proxy/src/httpcache.rs:422-455 | from any bounded state there are two such puts: a body that cannot be taken back, and a temporary that cannot be deleted |
| Host.ParentsAreTheNamesAbove | proxy/src/cosmetic.rs:211-215 | the walk over parents is "the same name, or ends with a dot and the name", for any strings |
| Host.CoversIffAtOrBelow | proxy/src/host.rs:32-43 | a set covers a host exactly when the host is at or below one of its names |
| Host.NormalizeTwice | proxy/src/host.rs:58-73 | a kept name has two labels, is canonical, and normalizes to itself |
| Host.WrittenNamesAreRead | proxy/src/host.rs:47-73 | two labels or more of letters, digits, hyphens and underscores, in any case and with root dots and space around them, are read as their lower case, unless a hosts file keeps the name for itself |
| Host.OnlyWrittenNamesAreRead | proxy/src/host.rs:47-73 | and nothing else is read as a name |
| Host.CanonicalMeans | proxy/src/host.rs:32-37 | a host is looked up in lower case and without its root dots |
| Cosmetic.ParseLine | proxy/src/cosmetic.rs:392-450 | the line parser computes the rule, or none, for any line |
| Cosmetic.RuleLinesAreRead | proxy/src/cosmetic.rs:392-471 | every domain list, separator and selector in a line is read as the rule it writes, and as none exactly when the selector is not one a style sheet can use, an exclusion cannot be read, no name given can, or it would take a selector back everywhere |
| Cosmetic.OnlyRuleLinesAreRead | proxy/src/cosmetic.rs:392-410 | and no other line is read as a rule |
| Cosmetic.ScopeMeans | proxy/src/cosmetic.rs:417-435 | reading the domain list gathers exactly the readable inclusions and all exclusions, and gives up on an unreadable exclusion |
| Cosmetic.WidenedIff | proxy/src/cosmetic.rs:437-442 | a rule naming domains becomes one for every site exactly when none of them can be read and an exclusion stands beside them |
| Cosmetic.AnUnreadNameHidesEverywhere | proxy/src/cosmetic.rs:417-442 | with generic rules switched on, such a rule hides on every host not at or below the excluded one; switched off, on none |
| Cosmetic.HiddenIffListed | proxy/src/cosmetic.rs:135-167 | looking up a host and its parents in the two tables is the rules' own meaning |
| Cosmetic.Index.Insert | proxy/src/cosmetic.rs:103-131 | a rule is added to the tables so that they still list exactly the rules read |
| Cosmetic.Index.Add | proxy/src/cosmetic.rs:95-101 | adding the lines of a list adds exactly the rules they parse to |
| Cosmetic.Index.Selectors | proxy/src/cosmetic.rs:135-167 | the answer is sorted, without duplicates, and holds exactly the selectors some rule hides and none spares |
| Cosmetic.LineOrderNeverMatters | proxy/src/cosmetic.rs:103-167 | two lists with the same rules hide the same, in whatever order |
| Encoding.ChosenIsWelcomeIff | proxy/src/encoding.rs:85-140 | the coding chosen is the preferred one by the tokens of the first accept-encoding field, and one the client takes by all its fields and names if and only if the first entry that names it does not refuse it in a later field or as x-gzip |
| Encoding.ChosenIsWelcome | proxy/src/encoding.rs:85-140 | with one field, and gzip called only that, it is the preferred one the client takes, and none is chosen exactly when it takes none we have |
| Encoding.NegotiatesExactly | proxy/src/encoding.rs:85-108 | the origin is asked for every coding we have that the first field accepts by its token, the preferred one first, or for none |
| Encoding.FieldsCombine | proxy/src/encoding.rs:85-101 | two accept-encoding fields say what one with their values joined would |
| Encoding.EntryRead | proxy/src/encoding.rs:110-126 | an entry is its name in lower case, wanted unless some parameter q, in either case, has a value that is nothing |
| Encoding.FirstFieldIsRead | proxy/src/encoding.rs:85-101 | the list is that of the first accept-encoding field, however spelled |
| Encoding.ALaterRefusalIsMissed | proxy/src/encoding.rs:85-101 | a request whose second field refuses brotli is given brotli |
| Encoding.AnAliasRefusalIsMissed | proxy/src/encoding.rs:128-138 | a request that refuses brotli and x-gzip and takes anything else is given gzip |
| Encoding.DecodeEncodeKeepsMeaning | proxy/src/encoding.rs:146-200 | decoding and encoding again keeps what a response means, for every response with one coding or none we know first |
| Encoding.DecodesExactlyWhen | proxy/src/encoding.rs:146-176 | a body is decoded exactly when the first content-encoding field names a coding we know and it decompresses; then all those fields go, all others stay, and otherwise nothing changes |
| Encoding.EncodesExactlyWhen | proxy/src/encoding.rs:179-200 | and goes out in the same coding, said once, whenever the compressor manages |
| Encoding.CompressesExactlyWhen | proxy/src/encoding.rs:214-282 | a response is compressed exactly when it was not coded, is 1024 bytes or more of a type that gets smaller, is no 204 or 304, the client takes a coding we have, and it gets smaller |
| Encoding.CompressingKeepsMeaning | proxy/src/encoding.rs:214-254 | compressing keeps the meaning, never lengthens, and adds to a response that has none a single coding, which the client takes unless it refused it where the code does not look |
| Encoding.PipelineKeepsMeaning | proxy/src/main.rs:743-764 | the whole pipeline keeps the meaning, puts no coding on another, and applies one the client does not take only where it refused it in a later field or under another name |
| Encoding.SecondCodingIsLost | proxy/src/encoding.rs:146-176 | for every other header list some codec and body lose their meaning |
| Encoding.Response.AddVary | proxy/src/encoding.rs:295-316 | the first Vary field is extended unless it names the header already, and one is added if there is none |
| Encoding.VaryMeans | proxy/src/encoding.rs:295-316 | afterwards the response varies on the token and on all it did, and no other field has changed |
| Encoding.Response.Compress | proxy/src/encoding.rs:214-254 | the response is changed in place as the specification says |
| Picker.StepOf | proxy/src/mach5.js:232-243 | counting siblings backwards gives the position among siblings of one tag |
| Picker.Shortest | proxy/src/mach5.js:251-276 | the upward walk computes the first unique path, or none |
| Picker.Exact | proxy/src/mach5.js:288-311 | the upward walk computes the child path to the nearest id or the body |
| Picker.SamePlaceSameElement | proxy/src/mach5.js:232-243 | one parent, one tag and one position are one element |
| Picker.StopsAtTheFirst | proxy/src/mach5.js:245-276 | below the top the walk used there is no unique id and no path that matches one element |
| Picker.PicksInOrder | proxy/src/mach5.js:313-315 | an element's own id comes first, and child steps only when no path of descendant steps would have done |
| Picker.ByIdExactlyWhen | proxy/src/mach5.js:221-230 | an id is used exactly when it needs no escaping and no other element has it |
| Picker.PositionCounts | proxy/src/mach5.js:232-243 | the place in a step is how many siblings of the tag there are up to the element, from one |
| Picker.ShortestNamesOne | proxy/src/mach5.js:251-276 | in any document a path kept by the walk names its element if and only if it starts at an id or a body is above its top, and so for everything under the document's body |
| Picker.ExactNamesOne | proxy/src/mach5.js:278-311 | in any document the child path from an id, or from the body when no other body has an element at the same path, names exactly its element, if a selector can hold the tags, and otherwise does not |
| Picker.PickedNamesOne | proxy/src/mach5.js:313-315 | in any document: never null at or under the body, and the exact condition under which the selector names the element asked for and no other |
| Picker.PickedInOneBody | proxy/src/mach5.js:313-315 | with a single body, and tags a selector can hold, a selector that starts at the body names the element if and only if the element is under it |
| Picker.OutsideTheBodyAnotherIsNamed | proxy/src/mach5.js:313-315 | a style in the head is answered with a selector for one in the body |
| Picker.TwoBodiesTwoElements | proxy/src/mach5.js:278-311 | with two bodies the child path matches an element in each |
| Refresh.ParseList | proxy/src/passthrough.rs:571-622 | the loop over lines and words computes the hosts named, or none above the ceiling |
| Refresh.ParseMeans | proxy/src/passthrough.rs:571-622 | for any text the hosts are those some word of some line adds, all of them, or none beyond ten thousand |
| Refresh.EntryExactlyWhen | proxy/src/passthrough.rs:633-670 | a word adds the name it is, or is a wildcard for, unless it is over 253 characters, a label over 63, or a registry's name |
| Refresh.NamesUpToAComment | proxy/src/passthrough.rs:577-605 | behind an address stand as many names as there are words, up to a comment |
| Refresh.ConfiguredMeans | proxy/src/passthrough.rs:347-371 | what is written down is kept trimmed and in lower case, unless empty or not ASCII |
| Refresh.AHostIsASite | proxy/src/passthrough.rs:633-670 | whatever a list holds, each host it adds has two labels, fits DNS, is no registry's own name, and reads back as itself |
| Refresh.WrittenIsRead | proxy/src/passthrough.rs:571-622 | hosts written one to a line, bare, with a wildcard or behind an address, are exactly what is read, or none if too many |
| Refresh.CutAtTheCommentIff | proxy/src/passthrough.rs:585-591 | a comment is cut where it starts exactly when a space starts it or no later space stands before a hash |
| Refresh.ATabbedRemarkLosesTheHost | proxy/src/passthrough.rs:585-605 | any host followed by such a comment is lost, though alone on its line it is read |
| Refresh.Refresher.Update | proxy/src/passthrough.rs:503-522 | only a text that names a host or more replaces what a URL contributes |
| Refresh.Refresher.Refresh | proxy/src/passthrough.rs:474-492 | one refresh computes every contribution and copy, and the list then covers just what is configured or some URL's contribution covers |
| Refresh.EachOnItsOwn | proxy/src/passthrough.rs:474-492 | over any run of refreshes each URL fares as if it were the only one |
| Refresh.PromisedIsTheLastFetched | proxy/src/passthrough.rs:494-502 | the contribution promised is that of the last usable body fetched, or the startup copy if none was |
| Refresh.LastUsableTextCounts | proxy/src/passthrough.rs:474-522 | over any run of refreshes and fetch outcomes a URL contributes that if and only if, since that body, no fetch brought nothing new while a usable copy naming other hosts was on disk |
| Refresh.StoringKeepsThePromise | proxy/src/passthrough.rs:494-522 | with every usable body put on disk the promise is kept in every run |
| Refresh.AFailedFetchKeepsIff | proxy/src/passthrough.rs:503-509 | a fetch that brings nothing new leaves a contribution standing if and only if the copy on disk names nothing or the same |
| Refresh.AFailedFetchDropsAHost | proxy/src/fetch.rs:63-98 | any host named by a body that could not be stored and not by the older copy is dropped when the next fetch fails |
| Refresh.OnlyAUsableListDrops | proxy/src/passthrough.rs:503-522 | a host a URL covers is dropped if and only if a usable list does not cover it: the body just fetched or, when nothing new came, the copy on disk |
| Refresh.CoveredByOne | proxy/src/passthrough.rs:410-413 | the union covers a host exactly when one contribution does |
| Refresh.RestartKeepsIff | proxy/src/passthrough.rs:530-540 | for any state and outcome, exactly when a restart after a refresh brings a contribution back |

## Left out

- TLS, QUIC, HTTP/3 framing, hyper, ureq, lol_html, WebP: foreign code. The QUIC library is a transport that takes any number of bytes, blocks or fails at each call.
- Compressors and their slices and limits: a codec is any functions with `plain(compress(x)) == x`; which quality values are zero is a parameter.
- `ResponsePath.StepKeepsInv`: one dispatched job per stream is assumed there; `Results` says what happens otherwise.
- Requests, interceptors, the streaming relay's own decoder and encoder, retries and error pages: a worker sends a whole response, or a head, non-empty chunks and an end, and may stop anywhere.
- `ResponsePath.RoundIsARun`: the list of a connection's responses is taken as the jobs on it; removing from the list while walking it is not modelled as a loop of its own.
- Time is a number of ticks; condition variables may wake at any time, spuriously too.
- `Cosmetic.ParseLine`: text is ASCII; Unicode spaces and letter case are not modelled, here or in `Host`, `Encoding` and `Refresh`.
- Machine integers other than the 64-bit progress counter, 32-bit speeds and length fields: sizes in memory do not overflow.
- `Replace.NoReaderSeesATear`: rename is atomic, as POSIX has it; processes sharing a directory have distinct process ids; directories are not created or removed.
- The cache's reader takes metadata before the body while the writer replaces the body first, so no claim is made that the two match; lookup, freshness and revalidation are not modelled.
- `Sweep.SweptOrStuck`: the size and age of every file can be read.
- `Sweep.EveryRunIsAccounted`: puts one after another; two at once share a counter that the model does not interleave.
- `Link.EstimateConverges`: equal samples within the entry's lifetime.
- `Drain.FigureIsExactIff`: hyper's own buffers between the queue and the socket are not part of this model; "taken" is taken off the queue.
- `Encoding.ChosenIsWelcomeIff`: of two entries for one coding the first is taken to count; quality values are not ranked, as in the source.
- `Picker.PickedNamesOne`: selectors are kept as their parts, not as the text joined from them; ids and tags are compared as written and in one namespace; `document.body` is the body element, not a frameset; an unwritable tag is taken to match nothing; an element inside a shadow tree is not modelled.
- `Refresh.LastUsableTextCounts`: each URL has its own file, here and in the other results about one URL; the names of files, validators and conditional requests are folded into "nothing new".
- `Refresh.Refresher.Refresh`: the fetched set is swapped whole, as one step; readers holding the previous set are not modelled.
- The blocklist, certificate authority, image store, plugins, settings, metrics, resolver, interstitials and the panel of the page script: the same ideas in easier form, or user interface.
