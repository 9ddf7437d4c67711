# Verification of the AllStak Go SDK's telemetry pipeline

This project models the path of an event through the SDK, from `Capture*` to the
disk, and the text algorithms on that path, and proves what each is for.

- **Event pipeline** (`Pipeline`, `PipelineSafety`, `PipelineRuns`, `ClientCode`,
  `Workers`). Five bounded channels, any number of capturing goroutines, one worker
  per channel and `Close` form a state machine in which every select, counter update
  and transport return is one step. A run is one interleaving. `ClientCode` holds the
  capture calls as methods over fields and proves that each call is a run of the
  machine; `Workers` holds the two worker loops and shows that they are runs of it.
- **Offline spool** (`SpoolNames`, `SpoolDir`, `SpoolInterference`, `SpoolRuns`,
  `SpoolOrder`, `SpoolReplay`). File names, the code that lists, bounds, writes and
  drains the directory, and a state machine of successive processes that crash anywhere;
  the drain's loop is shown to be a run of it.
- **Release-health session** (`Escalation`, `Recovery`, `RecoveryCode`). The lock-free
  status as threads that load and compare-and-swap; recovery as successive processes
  over one state file whose reads, writes and removals may fail.
- **Retry loop** (`Transport`), with int64 arithmetic that wraps as the program's does.
- **Text and trees** (`GoText`, `SqlNormalize`, `SqlTheorems`, `SqlMeaning`, `Luhn`,
  `Scrubber`, `TraceContext`, `Baggage`, `TraceHeaders`).

Events are natural numbers, the value of the captured counter when they were counted.
Bodies are opaque. Answers of the server, cancellations, failures of file operations,
random bytes, clock readings and what other goroutines do meanwhile are parameters or
machine moves.

## Where the code and its own words part

Each of these is kept as the code has it, with a lemma that says exactly when the
promise holds or a concrete input on which it does not.

- `Close` does not wait for captures under way: closing a channel can make the program
  panic exactly when a capture has passed the closed check and has not yet sent
  (client.go:304, client.go:555).
- The spool's names are unique within a process. A process that starts in the
  millisecond of a file it finds can overwrite that file (spool.go:201-205).
- When the drain deletes a file that the bounds loop has measured, the byte total stays
  too large and envelopes that fit, even the newest, can be evicted. The newest survives
  exactly when it fits together with the bytes that vanished so (spool.go:270-280).
- A session that ended by itself can still be reported as abnormal by a later process,
  exactly when it is no older than seven days and either an update of its state had read
  but not yet written while `endSession` wrote, or that write failed over the open state
  (session.go:412-423, session.go:441-460).
- The recovery report's duration runs to the moment of recovery, because the claim
  overwrites the time of the last update. It is the duration up to that update exactly
  when the two fall in one millisecond or neither is after the start (session.go:375,
  session.go:388).
- `parseRetryAfter` multiplies before it clamps, so a large number of seconds wraps to a
  short or negative delay (transport.go:246-250); the backoff product overflows at the
  38th retry, and `rand.Int63n` then panics (transport.go:118-122).
- `NormalizeSQL` is not idempotent exactly when removing a comment puts two dashes, or a
  slash and a star, side by side (sql_normalize.go:52-63).
- A comma in a request id makes `MergeBaggage` grow by one member at every merge
  (trace_headers.go:183-185).
- A slice that holds a shorter slice of its own array is taken for a cycle
  (sanitizer.go:257-264).

## Model

| member | source | states |
|---|---|---|
| PipelineSafety.StepKeepsBalance | client.go:353-367 | whatever one step does, each captured event stays in exactly one place: mid-capture, queued, in a batch or in flight, sent, dropped or persisted |
| PipelineSafety.StepKeepsFailures | worker.go:50-73 | whatever one step does, each event counted as failed is persisted, dropped after the failure, or still being decided |
| PipelineSafety.StepKeepsCounters | client.go:580-599 | the five counters keep agreeing with the record of which event each of them counted |
| PipelineSafety.StepKeepsStreams | worker.go:75-91 | on each channel, enqueued = removed from the head + still queued, batches handed over + pending = received, in order, batches non-empty and within the batch size |
| PipelineSafety.StepKeepsInv | client.go:353-367 | all of these together are kept by every step of every interleaving |
| PipelineRuns.Conservation | client.go:580-599 | in every reachable state each event below captured is in exactly one place and no other event is anywhere; captured (plus zero values popped from closed channels) = mid-capture + queued + in workers + sent + dropped + persisted; failed = persisted + lost + in doubt |
| PipelineRuns.OrderAndBatching | worker.go:46-91 | what a worker hands over, then its pending batch, is the enqueue order with gaps that are exactly the evictions; every batch has between one and BatchSize events; the queue stays within capacity |
| PipelineRuns.DeliveredInOrder | client.go:357-360 | the received events are found at increasing positions of the enqueue order, and the skipped positions are exactly the evictions |
| PipelineRuns.LosslessClose | client.go:543-563 | if channels close with no capture under way on them and everything has returned, all queues are empty, every captured event was settled exactly once, and captured = sent + dropped + persisted, whether or not the flush inside Close timed out |
| PipelineRuns.CaptureOnClosedPanics | client.go:304 | a capture under way on a closed channel reaches the panic within three moves of its own |
| PipelineRuns.ClosingIsSafeExactlyWhenQuiescent | client.go:555-559 | after closing a channel some run panics if and only if a capture was under way on that channel |
| PipelineRuns.ClosedWorkerExits | client.go:560 | in every run after its channel was closed, other goroutines' steps included, the moves of a worker, idle ticks aside, are bounded by what it had left, and until it has exited it can make one; so the wait in Close ends |
| ClientCode.Client.Capture | client.go:303-368 | a capture call counts one event, changes its queue as the ring buffer promises, drops as many as it displaces, panics exactly on a closed channel, and is a run of the pipeline machine by that goroutine alone |
| ClientCode.Client.Enqueue | client.go:353-367 | the three selects leave the queue with the newest event in and at most the oldest out, with the drop counted |
| ClientCode.Client.TryPush | client.go:353-355 | a non-blocking send succeeds exactly when there is room, and panics exactly on a closed channel |
| ClientCode.Client.TryPop | client.go:357-361 | a non-blocking receive takes the head, or nothing from an empty open channel |
| ClientCode.Client.Close | client.go:543-560 | the first call sets the closed flag and then closes every channel in order, waiting for no capture; later calls do nothing; the call is a run of the pipeline machine |
| ClientCode.NewestGetsIn | client.go:299-302 | in an undisturbed capture the newest event gets in, the oldest is lost only when the channel is full, and nothing is reordered; with other goroutines at work the second push may fail, which Conservation covers |
| Workers.AccountConserves | worker.go:18-33 | every event of every load is counted once as sent, persisted or dropped, and as failed exactly when it was not sent |
| Workers.AccountIs | worker.go:18-33 | sent grows by the sizes of the delivered loads, persisted by those of the loads that failed for now and could be stored, dropped by those of all others, failed by those not delivered |
| Workers.PermanentFailuresAreDropped | client.go:584-588 | if no failure was transient, nothing is written to the spool |
| Workers.BatchesKeepEverything | worker.go:75-91 | the batches concatenate to what was received, whatever the ticker does, and none is empty or too large |
| Workers.FullWithoutTicks | worker.go:84-86 | without ticks every batch handed over before the channel closes is full |
| Workers.HandedOverWhen | worker.go:81-88 | a tick hands over whatever is pending; an event hands over the batch exactly when it fills it, and is kept as pending otherwise |
| Workers.SingleIsBatchOfOne | worker.go:16-34 | the single-event loop hands over what a batch loop of size one does |
| Workers.LoopFollowsMachine | worker.go:43-91 | from every state in which a worker finds the items in its closed channel there is a run of the pipeline machine, by that worker alone, in which the k-th load gets exactly the answers of the k-th attempt, and that ends with the worker gone, the loop's batches handed over, and the counters grown by the sizes of the delivered, the stored and the other loads |
| Workers.Worker.Deliver | worker.go:63-72 | a delivered load is counted as sent; a load that failed for now and could be stored as failed and persisted; any other as failed and dropped |
| Workers.Worker.RunSingle | worker.go:16-34 | the loop hands over each item by itself, in order; sent, persisted and dropped grow by the sizes of the delivered, the stored and the other loads |
| Workers.Worker.RunBatch | worker.go:43-91 | the loop hands over exactly the greedy batches, the last one included; sent, persisted and dropped grow by the sizes of the delivered, the stored and the other loads |
| Workers.Worker.Flush | worker.go:50-73 | an empty batch is not sent; another is sent whole, reset and accounted for |
| SpoolNames.NameOrderIsCreationOrder | spool.go:201-205 | for 13-digit milliseconds and 10-digit sequence numbers, byte order of the names is lexicographic order of (millisecond, sequence) |
| SpoolNames.NameOrderFailsBeyondWidth | spool.go:204 | the first name with a longer millisecond sorts before the last one that fits |
| SpoolNames.FileNameInjective | spool.go:193-205 | two names are equal only for equal milliseconds and sequence numbers, of any size |
| SpoolNames.FileNameIsListed | spool.go:245 | every name the spool writes passes the listing's filter |
| SpoolNames.NameParts | spool.go:198-205 | a name is evt-, the millisecond padded to 13 digits, a dash, the sequence number padded to 10, and .json |
| SpoolDir.Spool.ListEnvelopes | spool.go:234-251 | the listing is strictly sorted and holds exactly the envelope names on the disk |
| SpoolDir.Spool.StatAll | spool.go:258-266 | the measured total is at least the size of the listed files that still exist, and exact when nothing interferes |
| SpoolDir.Spool.EnforceBounds | spool.go:255-281 | whatever the drain deletes meanwhile, the listed files that still exist fit both caps, and a file that the drain did not delete goes only if the listed files from it on were too many or the listed directory too large; undisturbed, what stays is exactly the longest newest-first suffix that fits |
| SpoolDir.EvictedFits | spool.go:268-280 | the removal loop ends with both caps met even though deletions by the drain leave its total too large |
| SpoolDir.EvictedExactly | spool.go:268-280 | undisturbed, the loop stops at the first suffix of the listing that fits |
| SpoolDir.NewestSurvives | spool.go:175-189 | undisturbed, the newest envelope, no larger than the byte cap, is never evicted |
| SpoolInterference.NewestSurvivesExactlyWhen | spool.go:258-280 | whatever the drain deletes during the measurement and the removals, other than the newest envelope itself, the newest survives if and only if its size and the sizes of the files measured and then vanished before their turn fit the byte cap together |
| SpoolInterference.NewestCanBeEvicted | spool.go:275-278 | of two envelopes the older is deleted by the drain after the measurement, and the bounds loop evicts the newer although it fits |
| SpoolDir.SurvivorsAreListing | spool.go:234-251 | the surviving part of a listing is the one and only listing of the surviving directory |
| SpoolDir.Spool.Persist | spool.go:160-191 | oversized envelopes are refused, a refused or failed write changes nothing, afterwards every listing of the directory fits both caps, and undisturbed exactly the longest newest-first suffix that fits stays; if all envelopes there were named by earlier calls, the new one is the newest and stays unchanged, and so they are for the next call |
| SpoolDir.NewNameIsGreatest | spool.go:198-205 | a new name sorts after all names given earlier by clock and sequence |
| SpoolDir.Spool.Replay | spool.go:311-343 | an envelope is sent exactly when it is well-formed, of version 1, with a path and not older than the cutoff; it stays, unchanged, exactly when it was sent and the failure may pass |
| SpoolDir.Spool.Drain | spool.go:291-345 | under cancellation and concurrent evictions: a fresh envelope of version 1 with a path whose send fails for now stays unchanged; an uncancelled drain leaves no others; a cancelled one neither sends nor removes anything more; directory, sent envelopes and replay count are those of the drain specification |
| SpoolDir.DrainRemovesForReason | spool.go:301-344 | a drain only takes files away, each because it was unsendable, accepted or rejected, or evicted, and if not cancelled leaves none that was |
| SpoolDir.DrainKeepsTransient | spool.go:311-343 | replay is at least once: an envelope of version 1, with a path, not older than the cutoff, whose send failed for now and which nobody evicted is on the disk unchanged; if not cancelled, a drain leaves only such envelopes of its listing |
| SpoolDir.DrainStops | spool.go:301-304 | from the file before which the context is cancelled on, nothing is sent or removed |
| SpoolDir.DrainSendsInOrder | spool.go:296-327 | whatever happens meanwhile, only sendable envelopes are sent, oldest first, each at most once |
| SpoolDir.DrainSendsEverything | spool.go:327-336 | undisturbed, every sendable envelope is sent and exactly the accepted ones are counted as replayed |
| SpoolReplay.DrainFollowsMachine | spool.go:291-345 | where no persist interferes, the drain's loop is a run of the spool machine by the replaying goroutine alone, with the same answers in the same order, that leaves the same files; so Durable holds of it |
| SpoolRuns.StepKeepsInv | spool.go:160-191 | disk and history together keep accounting for every envelope, in every interleaving of persists, drain, crashes and restarts |
| SpoolRuns.Durable | spool.go:285-290 | over any number of crashing processes an envelope is on the disk if and only if it has not left for a recorded and justified cause; acceptance or rejection precedes the removal it justifies, and an eviction by the bounds means that the directory listed under the mutex held too many envelopes from that one on or too many bytes |
| SpoolRuns.EvictionIsJustified | spool.go:255-280 | in every reachable interleaving, what the bounds loop removes was listed when the directory exceeded a cap |
| SpoolOrder.NamesSortByAge | spool.go:198-205 | if each process starts after the files it finds, the names of the envelopes written, over any number of processes, sort in the order in which they were written |
| SpoolOrder.NewestHasGreatestName | spool.go:184-189 | under the same condition the envelope just written has the greatest name |
| SpoolRuns.TimelyProcessesLoseNothing | spool.go:193-205 | if no process starts in the millisecond of a file it finds, no envelope is ever overwritten or removed in place of another |
| SpoolRuns.ClashHappens | spool.go:201-205 | a process that finds a file with a name it will itself reach overwrites that file in some run |
| SpoolRuns.RestartIsSafeExactlyWithoutClash | spool.go:196-205 | a new process can lose an envelope to a name clash if and only if some file's name is from its first millisecond or later |
| Escalation.StatusNeverFalls | session.go:101-113 | in every interleaving the rank of the status never falls |
| Escalation.FinalStatusIsHighest | session.go:115-128 | when every call has returned, the status is crashed if that was requested, else abnormal, else errored, if requested, else ok; the error counter equals the number of calls |
| Escalation.LoopIsBounded | session.go:104-112 | a call goes round its loop at most rank + 1 times, four at most, whoever interferes |
| Escalation.Session.Escalate | session.go:103-113 | the loop ends with the status at least as severe as before and as requested, unchanged or set to a requested value |
| Escalation.Session.RecordCrash | session.go:125-128 | a crash counts one error and always ends with the status crashed |
| Recovery.StepKeepsInv | session.go:345-410 | attempts, claims and reports stay in step whatever crashes or fails |
| Recovery.ReportsAreBounded | session.go:363-380 | a session is reported by recovery at most once per durable claim, and at most three times |
| Recovery.ReportsCarryStatusAndDuration | session.go:382-390 | every recovery report says crashed if that was the stored status and abnormal otherwise, and gives a duration of zero to 604,800,000 ms |
| Recovery.RecoveredSessionStaysClosed | session.go:403-408 | once the closed state of a recovered session is on the disk it is never reported again |
| Recovery.SettledForever | session.go:354-362 | a session that is closed or expired on the disk and held open by nobody is never reported again, in any run |
| Recovery.OpenSessionIsReported | session.go:345-397 | from any state, a process running or not, with an open, young, unlocked session on the disk with attempts left, a run reports it |
| Recovery.EndedSessionIsReportedExactlyWhen | session.go:298-325 | whether or not the closing write succeeds, a session that ended by itself can later be reported if and only if it is no older than seven days and either an update was between its read and its write when it ended, or the write failed and its open state is on the disk |
| RecoveryCode.Tracker.ReadState | session.go:425-439 | an unreadable file is left alone, an invalid one removed, a valid one returned |
| RecoveryCode.Tracker.Examine | session.go:349-375 | a claim is made exactly for a recoverable session, with one more attempt, a fresh owner and a lock |
| RecoveryCode.Tracker.ClaimSession | session.go:376-380 | the claim is ours exactly when it was written and could be read back |
| RecoveryCode.Tracker.ReportEnd | session.go:382-409 | the report carries the right status and duration; afterwards the file is closed, or unlocked, or unchanged if the write failed |
| RecoveryCode.Tracker.Recover | session.go:345-410 | a report is sent exactly when the saved session is recoverable and the claim held; its duration is that up to the last update if and only if the claim did not move that time or neither is after the start; the file afterwards is determined; the call is a run of the recovery machine |
| RecoveryCode.RecoverAfterDowntime | session.go:375-388 | a session last heard of one second after its start and recovered after four is reported to have lasted four |
| Transport.BackoffIsExponential | transport.go:116-121 | up to the 37th retry nothing overflows and the base is min(100 ms * 2^(k-1), 5 s) |
| Transport.BackoffWrapsAt38 | transport.go:118 | at the 38th retry the product has wrapped to a negative number |
| Transport.BackoffIsSafeExactlyUpTo37 | transport.go:118-122 | every base is large enough to draw jitter from if and only if at most 37 retries are allowed |
| Transport.ClampHoldsExactlyWhen | transport.go:242-250 | the clamp gives the clamped delay exactly when no clamp is needed or the wrapped product still reaches the clamp |
| Transport.HugeRetryAfterWraps | transport.go:246 | two numbers of seconds that yield a negative delay and one below a second |
| Transport.SendTakesFirstDecisive | transport.go:103-189 | result and number of attempts are those of the first 2xx or permanent 4xx among the first maxRetries + 1 answers, or exhaustion |
| Transport.OutcomeByNumbers | transport.go:158-189 | delivered only if the last answer is 200..299; permanent only with a code in 400..499 other than 429; every answer before that, and every answer of an exhausted send, is a network error, a 429, or outside 200..299 and 400..499 |
| Transport.RateLimitsAre | transport.go:161-163 | the rate limits counted are as many as there are answers 429 |
| Transport.HintIs | transport.go:172-177 | only a 429 or a 503 asks for a delay: n seconds for 0 < n <= 300 and 300 seconds for more, up to the number that wraps; a date is clamped likewise |
| Transport.WaitsAreNumbers | transport.go:108-124 | a 429 or 503 that asked for n seconds, at most 300, is waited for exactly; otherwise, up to the 37th retry, a wait is within a quarter of the smaller of 0.1 s doubled at each retry and 5 s |
| Transport.HttpTransport.Wait | transport.go:108-124 | before any attempt, a wait is the server's delay, at most 300 s, or within 75% to 125% of its base, at most 5 s, which up to the 37th retry is the capped exponential backoff; it panics exactly when there is no hint and the base is too small |
| Transport.HttpTransport.Send | transport.go:71-189 | the loop ends with the first decisive answer, told by the numbers of the answers, after at most maxRetries + 1 attempts and after exactly so many if exhausted, unless cancelled, unbuildable or panicking; retries and 429s are counted; every wait is as promised, however many retries are allowed |
| GoText.SplitUndoesJoin | trace_headers.go:51 | splitting what was joined gives the parts back if no part holds the separator |
| GoText.JoinOfSplit | trace_headers.go:176-186 | joining what was split gives the text back |
| SqlNormalize.NormalizeSQL | sql_normalize.go:21-125 | the scanner with one rune of lookahead computes the same text as a transducer without lookahead, for all Unicode input, comments included; what that text is, NormalFormIsMeaning says |
| SqlNormalize.ConsumeNumber | sql_normalize.go:98-107 | the inner loop skips a number just as the transducer does |
| SqlTheorems.EchoRun | sql_normalize.go:85-119 | unless it opens a comment, the output scanned again is written out rune by rune as it is |
| SqlTheorems.IdempotentExactlyWhen | sql_normalize.go:21-125 | normalizing twice equals normalizing once if and only if nowhere in the statement a removed comment leaves two dashes, or a slash and a star, side by side; a condition on the statement, decided in one pass over it |
| SqlTheorems.CommentFreeIsIdempotent | sql_normalize.go:52-63 | a statement in which the scanner enters no comment has a normal form in which it enters none, and normalizing is idempotent on it |
| SqlTheorems.CommentShortens | sql_normalize.go:39-63 | a text in which the scanner enters a comment is strictly longer than its normal form |
| SqlTheorems.RemovedCommentCanOpenAnother | sql_normalize.go:52-63 | a statement whose normal form normalizes to something else |
| SqlTheorems.NormalFormHasNoLiterals | sql_normalize.go:98-124 | for such statements, outside double-quoted identifiers a normal form has no single quote; no digit first, after a space or after one of ( , = < > + - * /; and only single inner spaces |
| SqlMeaning.NormalFormIsMeaning | sql_normalize.go:21-125 | part by part: words, signs and quoted identifiers are written as they stand, a digit that follows a letter, digit or underscore included; a string literal, or a number at the start or after a blank or one of ( , = < > + - * /, is one question mark; blanks are one space and none at the ends; comments are nothing |
| SqlTheorems.LiteralWritesOneMark | sql_normalize.go:66-83 | a literal, quotes doubled or not, is written as one question mark and leaves the scanner in a state that does not depend on what it says |
| SqlTheorems.LiteralsDoNotMatter | sql_normalize.go:66-107 | statements with the same template and different string and numeric literals, any number of them, have the same normal form |
| Luhn.LuhnValid | sanitizer.go:140-165 | the right-to-left loop decides whether there are at least 13 digits and the sum over the places from the right, of the digit d, or at odd places of 2d / 10 + 2d mod 10, is divisible by ten |
| Luhn.ChecksumIsPlaceSum | sanitizer.go:150-160 | the weighted checksum of the other theorems is that sum: every second digit from the right contributes the digit sum of its double |
| Luhn.DigitsRead | sanitizer.go:147-150 | the characters 0 to 9 are read as their values, in order, and all others are passed over |
| Luhn.SeparatorsDoNotMatter | sanitizer.go:147-149 | characters other than digits may be put in or left out anywhere |
| Luhn.SingleErrorDetected | sanitizer.go:150-164 | a valid number with any one digit changed is invalid |
| Luhn.WrongCharacterDetected | sanitizer.go:150-164 | the same of the text: a valid run with one digit character replaced by another is invalid |
| Luhn.SwapDetectedExactlyWhen | sanitizer.go:152-159 | exchanging two neighbouring digits keeps a number valid if and only if they are equal or are 0 and 9 |
| Luhn.CheckDigitIsUnique | sanitizer.go:161-164 | exactly one last digit makes a payload of twelve or more digits valid |
| Scrubber.IsSensitiveKey | sanitizer.go:125-133 | the loop finds whether the lower-cased key contains one of the denied words, written out |
| Scrubber.SensitiveInside | sanitizer.go:123-133 | a key that contains a sensitive key, in any letter case, is sensitive |
| Scrubber.SensitiveMeans | sanitizer.go:56-83 | a key is sensitive exactly if its lower case contains one of the listed words, written out |
| Scrubber.Walk.ScrubValue | sanitizer.go:222-278 | the walk over a heap of shared and cyclic containers ends, restores seen, and returns what the specification says, whatever the order of map keys |
| Scrubber.CopyIsShallow | sanitizer.go:223-225 | on any heap, cyclic or not, the copy nests at most 16 deep and the sentinel stands for what is deeper |
| Scrubber.CopyIsSanitized | sanitizer.go:236-256 | only the sentinel stands under sensitive keys, and every other string went through the string scrubber |
| Scrubber.CopyMirrors | sanitizer.go:222-278 | a place is in the copy if and only if the value has it and the walk does not stop on the way; the sentinel stands exactly under sensitive keys, sixteen levels deep and where a container is met inside itself; elsewhere keys, lengths and other values are kept and each text is that text scrubbed |
| Scrubber.GuardIsInvisibleExactlyWhen | sanitizer.go:229-235 | the result is that of the plain tree recursion if and only if the walk never enters a container it is still inside of |
| Scrubber.AcyclicIsTree | sanitizer.go:217-221 | on inputs without cycles, with sharing, the result is that of the plain tree recursion |
| Scrubber.SharedArrayTakenForCycle | sanitizer.go:257-264 | a slice that holds a shorter slice of its own array loses it, although following references ends |
| Scrubber.ScrubbingTwiceIsOnce | sanitizer.go:280-287 | given a string scrubber that fixes its results and the sentinel, scrubbing a copy of a result returns that result if and only if no container of the copy is met inside itself, as in freshly made copies |
| TraceContext.CollectHex | trace_headers.go:148-156 | the loop keeps exactly the hexadecimal digits of the lower-cased text, in order |
| TraceContext.HexOnlyReads | trace_headers.go:148-156 | rune by rune: digits and a to f stay, A to F become lower case, everything else goes |
| TraceContext.DashesDoNotMatter | trace_headers.go:148-156 | a dash in an id, as in a UUID, makes no difference |
| TraceContext.NewIDIsWellFormed | context.go:266-287 | a new id is lower-case hexadecimal of the right length and not zero, whatever the random bytes |
| TraceContext.NewIDReads | context.go:266-287 | two digits of a new id are one random byte, high digit first, so no randomness is lost; only an id of zeros is changed, in its first digit |
| TraceContext.NormalizedIsWellFormed | trace_headers.go:118-146 | a normalized id is well-formed for every input |
| TraceContext.CandidateIs | trace_headers.go:121-130 | the candidate has the wanted length: the leading hexadecimal digits, then zeros |
| TraceContext.WellFormedMeans | trace_headers.go:92-98 | well-formed is: of the length, digits and a to f only, and not all zeros |
| TraceContext.NormalizeKeepsExactlyWellFormed | trace_headers.go:118-146 | normalizing leaves an id as it is if and only if it is well-formed |
| TraceContext.NormalizeIsIdempotent | trace_headers.go:118-146 | normalizing twice is normalizing once, whatever random bytes are drawn |
| TraceContext.RandomExactlyWhenBlank | trace_headers.go:121-130 | an id is replaced by a random one if and only if its leading hexadecimal digits are all zero or missing |
| TraceContext.ParsedIsWellFormed | trace_headers.go:50-70 | whatever the header, the parsers yield a well-formed id or none |
| TraceContext.FieldsAreRead | trace_headers.go:50-70 | a traceparent of four fields yields its second and third, in lower case, if the version is 00, the flags are two hexadecimal digits and the fields are 32 and 16 of them, not all zero; else nothing |
| TraceContext.TraceparentRoundTrip | trace_headers.go:201-203 | for all ids, parsing the formatted header gives exactly the normalized trace and span ids, of 32 and 16 digits, between 00- and -01 if sampled, else -00 |
| Baggage.AllStakBaggage | trace_headers.go:159-171 | the SDK's baggage joins one member for each id that is not empty |
| Baggage.AddedAre | trace_headers.go:159-171 | the trace id stands under allstak-trace_id, the request id under allstak-request_id and the span id under allstak-span_id, none if empty |
| Baggage.VendorsAre | trace_headers.go:174-182 | between commas, a member is a vendor's unless it is blank or begins with allstak- in any letter case |
| Baggage.MergeBaggage | trace_headers.go:174-187 | the loop computes the vendor members of the old baggage followed by the pieces of the new |
| Baggage.MergeKeepsVendors | trace_headers.go:173-187 | read back, the merged baggage has the old vendor members in order, and of the SDK's own only the new ones |
| Baggage.MergeIsIdempotentExactlyWhen | trace_headers.go:183-186 | merging the same ids again changes nothing if and only if no id has, behind a comma, text that reads as another's member |
| Baggage.MergeOfPlainIds | trace_headers.go:173-187 | for ids without commas: vendors survive in order, old own members vanish, each new one is there once, and merging again changes nothing |
| Baggage.CommaAddsAMember | trace_headers.go:183-185 | with a comma in the request id every merge adds one more vendor member |
| TraceHeaders.Headers.SetTraceRequestHeaders | trace_headers.go:247-263 | all headers carry the same normalized ids although they are normalized twice, and no other header changes |
| TraceHeaders.StampedFields | trace_headers.go:247-263 | which value every header of the stamped request has, the untouched ones included |
| TraceHeaders.ReceivedFrom | trace_headers.go:18-48 | a receiver takes the ids from traceparent, then the X-AllStak headers, then the X- ones, the request id the other way round, and makes up the trace and request ids it does not find |
| TraceHeaders.SpanPropagates | trace_headers.go:20-39 | with a span id the receiving service always continues the caller's trace and span, whatever headers were there before |
| TraceHeaders.TracePropagatesExactlyWhen | trace_headers.go:250-260 | without a span id the trace is continued if and only if no valid traceparent of another trace was there |
| TraceHeaders.RequestPropagates | trace_headers.go:41-48 | the request id arrives trimmed unless an X-Request-Id header was there already |
| TraceHeaders.StampingTwiceExactlyWhen | trace_headers.go:247-263 | stamping the normalized ids that a request carries once more changes nothing if and only if the request id hides no member behind a comma |
| TraceHeaders.StampingAgainExactlyWhen | trace_headers.go:247-263 | for the ids a caller passes, the second stamp changes nothing if and only if they normalize to the same ids again, as they do unless one is blank and drawn at random, and the request id hides no member |

## Left out

- PipelineRuns.LosslessClose: assumes that no capture is under way on a channel when it closes; without that the code panics, which ClosingIsSafeExactlyWhenQuiescent states.
- PipelineRuns.Conservation: leaves out SendHeartbeat, which counts an event as captured and no outcome (client.go:502).
- SpoolDir.Spool.EnforceBounds: assumes that os.Remove fails only because the file is gone; the state machine of SpoolRuns has no such assumption.
- SpoolRuns.Durable: assumes one process per spool directory at a time, a clock that does not go back, and no deletion by others.
- Recovery.ReportsAreBounded: holds for processes that follow one another; two that recover at the same time are not excluded by the code (session.go:371-380).
- Scrubber.ScrubbingTwiceIsOnce: takes idempotence of the string scrubber as a hypothesis; scrubString is described as idempotent (sanitizer.go:285), but in 123-45-6789-4222222222222 it redacts the social security number first and only a second pass sees the card number.
- SpoolOrder.NamesSortByAge: assumes that each process starts in a later millisecond than the files it finds, and names within their widths; without that the code reuses names, which RestartIsSafeExactlyWithoutClash states.
- SqlMeaning.NormalFormIsMeaning: speaks of statements whose literals, quoted identifiers and comments are closed; for the others NormalizeSQL still says what is written.
- SpoolReplay.DrainFollowsMachine: speaks of a drain that no persist interrupts; with evictions in between, DrainKeepsTransient, DrainStops and DrainSendsInOrder hold of the loop, and Durable of the machine.
- Transport.HttpTransport.Send: takes Retry-After as a number, a date or neither; reading the header's text is not modelled.
- The regular expressions of scrubString, scrubPayload and the structs it copies.
- HTTP, gzip, JSON, real files, temporary files and their renaming other than as one atomic step; two updates of the session state that share a temporary file.
- The session start message and the delivery of the session end message; session updates made by a capture are moves of the recovery machine, not of the pipeline.
- Stamping of events with environment, release, tags and session id, and what BeforeSend changes in an event; only its verdict is an input.
- Flush, which waits and sleeps but changes nothing.
- Lower case outside ASCII: only the two runes whose lower case is ASCII are mapped, since only ASCII text is compared with.
- HashSQL, ClassifySQL, sampling, breadcrumbs, middleware, logger bridges, configuration, diagnostics and the order of headers on the wire: plumbing or facts of one branch.
