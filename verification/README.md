# Verified model of the k8shelld daemon core

The project models the stateful parts of the daemon and proves what they promise, over every input and
every run. It follows the program's files: one module for each component, classes with `modifies` clauses
where the source updates an object, loops where the source loops, and datatypes for values. `Bytes`,
`Options` and `Units` hold what the modules share.

- `RingBuffers`: the circular scrollback buffer, specified by the unbounded history of what was written.
- `InputFilter`: the streaming Ctrl+A D filter, specified without its held byte: a detach key triggers
  when the run of Ctrl+A bytes just before it has odd length.
- `QueryResponses`: the scanners that drop echoed terminal responses from replayed scrollback, proved
  against a declarative grammar in the terms of sections 5.4 and 5.6 of ECMA-48.
- `Sessions` and `SessionRuns`: one PTY session, and all interleavings of its PTY pump, of any number of
  gRPC and REST clients, of the calls that serve them, and of the collector. A step is one section under a
  mutex, one send, or one look at whether the shell has exited.
- `AcquireLocks`: one-shot expiring claims on sessions, call by call and over whole runs.
- `LogStore`: the bounded log store, its paging and following RPCs, while entries are written and evicted.
- `HistoryWindow` and `UsageHistory`: the window and step of a usage query; recording, pruning, bucketing.
- `OrphanSweeper`: the sweeps that signal orphaned processes, and the registrations that protect from them.
- `Quantities`: byte quantities, as exact rationals, from the literal to the rounded result.
- `MountPaths` and `Environment`: octal escapes in mountinfo; the environment of a started process.

## Where the code and its comments differ

The model does what the code does. Each difference below is a proved statement.

- A mode report (`ESC [ ? Ps $ y`) is listed among what is stripped. It never is by itself: it is kept whole,
  unless all of it stands inside a control string that is dropped (`QueryResponses.ModeReportFate`).
- Stripping twice can strip more than stripping once: exactly when kept bytes around a dropped slice join up
  to a new phrase (`QueryResponses.StrippingTwiceIff`, `QueryResponses.StrippingTwiceMayStripMore`).
- With detaching switched off, input is meant to pass unchanged. It does exactly when every detach
  sequence is in lower case and ends its message (`InputFilter.DisabledDetachIsTransparent`).
- A client that drops after a reattach without detach-on-close is said to destroy the session. The session
  lives on, and no visit of the collector ends it (`Sessions.LeavingDecidesCollection`,
  `SessionRuns.AbandonedIsReached`, `SessionRuns.AbandonedIsNeverCollected`).
- The collector, the call that opened the session, and a REST call whose client is gone each decide in one
  section and end the session in another. They can end it under a client: exactly when one attached at the
  decision is undisturbed, or another has attached since and is (`SessionRuns.CollectorEndsAttachedIff`,
  `SessionRuns.OpenerEndsAttachedIff`, `SessionRuns.RestEndsAttachedIff`). The opening call can also end a
  session that was detached in between (`SessionRuns.OpenerMayEndDetached`).
- Two locks on one session can both be accepted at the instant one expires (`AcquireLocks.TwoAcceptedAtExpiry`).
- A session whose name is empty is listed but cannot be acquired (`AcquireLocks.ListedIffAcquirable`).
- A usage series can have 721 points instead of the intended 720 (`HistoryWindow.PointCount`,
  `HistoryWindow.CapIsExceeded`), and its window can end in the future (`HistoryWindow.WindowWithinRetention`).
- The clean-up of the sweeper's ignore list keeps list indices instead of process IDs
  (`OrphanSweeper.IgnoreListKeeps`); registered processes stay protected all the same. A later session member
  is spared only if its leader's ID is still in the list, by a new registration or as an index
  (`OrphanSweeper.LateMemberIsSparedIff`).
- A quantity whose exponent is the least 64-bit integer is read as if it had none (`Quantities.SizeIsExact`,
  `Quantities.SmallestExponentIsMisread`).
- A record that lands between a query's reading of the clock and its lock can prune a sample of the window
  asked for (`UsageHistory.RecordMayOutrunQuery`); the answer is that of the full log whenever the window
  starts within the retention as of the last record (`UsageHistory.History.Query`).

## Model

| member | source | states |
|---|---|---|
| RingBuffers.RingBuffer.Write | internal/grpc/ringbuf.go:28-52 | the buffer still holds the last `cap` bytes of the history, now extended by the data, for chunks of any length including longer than the capacity |
| RingBuffers.RingBuffer.Snapshot | internal/grpc/ringbuf.go:54-72 | the result is the last min(total, cap) bytes ever written |
| RingBuffers.RingBuffer.Mark | internal/grpc/ringbuf.go:74-80 | everything written so far lies before the mark; the contents stay |
| RingBuffers.RingBuffer.SnapshotSinceMark | internal/grpc/ringbuf.go:82-112 | the result is the last min(total - mark, cap) bytes, all written after the mark |
| RingBuffers.StoreByte | internal/grpc/ringbuf.go:42-51 | storing a byte at the slot the code computes, and moving head or used, turns a buffer of the last n bytes of h into one of the last n bytes of h + [b] |
| RingBuffers.ContentsSinceMark | internal/grpc/ringbuf.go:98-111 | reading from (head + skip) mod cap gives exactly the tail of what was written after the mark, across the wrap |
| InputFilter.ClientInput.FilterPtyInput | internal/grpc/detachable.go:724-742 | output, held byte and detach are those of the declarative reading of the pending byte plus the data, whatever state the last message left |
| InputFilter.ClientInput.Deliver | internal/grpc/detachable.go:222-243 | what one message hands to the PTY and how it leaves the loop, with detaching allowed and not, and when the PTY fails |
| InputFilter.NoDetachPassesEverything | internal/grpc/detachable.go:724-742 | without a detach, output plus a held Ctrl+A is the previously held Ctrl+A plus the input |
| InputFilter.FilterSplits | internal/grpc/detachable.go:724-742 | one call on a + b equals a call on a followed, unless it detached, by a call on b |
| InputFilter.ChunkingIsInvisible | internal/grpc/detachable.go:184-243 | for any cutting of the client's bytes into messages, the joint output, held byte and detach point equal those of one call on all of them |
| InputFilter.DisabledDetachIsTransparent | internal/grpc/detachable.go:234-238 | with detaching off the PTY gets the client's bytes unchanged if and only if every detach sequence is in lower case and ends its message |
| InputFilter.DetachMeans | internal/grpc/detachable.go:724-742 | a detach happens if and only if D or d follows a run of Ctrl+A bytes of odd length, said of the byte values; the first such place ends the input, and what precedes its Ctrl+A gets through |
| QueryResponses.ScanCSIResponse | internal/grpc/detachable.go:600-626 | finds at i ESC [, parameter bytes 0x30 to 0x3f and R or c, or proves that no end position makes one; the branch for `$ y` cannot be taken |
| QueryResponses.ScanSGR | internal/grpc/detachable.go:677-689 | finds a style sequence at j, or proves there is none |
| QueryResponses.ScanEOLMark | internal/grpc/detachable.go:636-673 | finds a prompt end-of-line mark at i, or proves there is none however its style runs are split |
| QueryResponses.ScanOSCResponse | internal/grpc/detachable.go:693-706 | finds a colour report up to its first terminator, or proves there is none |
| QueryResponses.ScanSTTerminated | internal/grpc/detachable.go:710-721 | finds the end of the first string terminator, or proves there is none |
| QueryResponses.StripTerminalQueryResponses | internal/grpc/detachable.go:542-589 | the loop ends and returns the leftmost reading of the grammar over all byte strings; the five members at the end of this group say byte by byte what that reading drops |
| QueryResponses.NoiseUnique | internal/grpc/detachable.go:525-541 | at most one phrase of the grammar starts at a position, so the leftmost reading is well defined |
| QueryResponses.InputMinusNoise | internal/grpc/detachable.go:542-589 | the output is the input with some slices left out, in order, and each left-out slice is by itself a CSI response, an end-of-line mark, a colour report or a device control string |
| QueryResponses.UnchangedIffNoNoise | internal/grpc/detachable.go:542-589 | scrollback is replayed byte for byte if and only if no such phrase starts anywhere in it |
| QueryResponses.DroppedSequenceHasNoDollar | internal/grpc/detachable.go:608-624 | no dropped phrase that starts with ESC [ holds a `$` |
| QueryResponses.ModeReportIsKept | internal/grpc/detachable.go:606-624 | wherever the reading comes to a mode report, with any parameters and anything around it, the report is kept byte for byte |
| QueryResponses.ModeReportFate | internal/grpc/detachable.go:542-626 | of a mode report anywhere in the scrollback all bytes are kept, if and only if the reading drops no control string that has the whole of it inside; otherwise none of them is |
| QueryResponses.ModeReportIsSwallowed | internal/grpc/detachable.go:576-583 | a report inside a device control string that goes with it |
| QueryResponses.StrippingTwiceIff | internal/grpc/detachable.go:542-589 | stripping the output again changes nothing if and only if nothing that is kept on both sides of a dropped slice joins up to a phrase |
| QueryResponses.EscapeSurvivesIff | internal/grpc/detachable.go:548-586 | an ESC is in the output if and only if the reading comes to one at which no phrase begins |
| QueryResponses.CleanEscapesStripOnce | internal/grpc/detachable.go:542-589 | input in which every ESC begins a phrase loses all of them, and stripping it twice is stripping it once |
| QueryResponses.StrippingTwiceMayStripMore | internal/grpc/detachable.go:542-589 | `ESC ESC[1R [1R` strips to `ESC[1R`, which strips to nothing |
| QueryResponses.CsiResponseIsDropped | internal/grpc/detachable.go:600-626 | ESC [ with any parameter bytes and then R or c is dropped wherever the reading comes to it |
| QueryResponses.ColourReportIsDropped | internal/grpc/detachable.go:693-721 | ESC ] 10 ; and ESC ] 11 ; are dropped up to their first BEL or ESC \ |
| QueryResponses.DeviceControlIsDropped | internal/grpc/detachable.go:710-721 | ESC P is dropped up to its first BEL or ESC \ |
| QueryResponses.EolMarkIsDropped | internal/grpc/detachable.go:636-673 | one or more style sequences, `%` or `#`, any number of style sequences, any number of spaces and a CR are dropped as one, for every such text |
| QueryResponses.OnlyTheseAreDropped | internal/grpc/detachable.go:542-589 | nothing else is: every dropped phrase has one of these forms |
| Sessions.SessionData.DoAttach | internal/grpc/detachable.go:74-82 | the new sender is attached, the detach time is cleared, a fresh open signal replaces the old one |
| Sessions.SessionData.PumpChunk | internal/grpc/detachable.go:95-102 | the chunk is in the scrollback before the sender is looked up; only the byte count changes besides |
| Sessions.SessionData.SendFailed | internal/grpc/detachable.go:104-110 | a failed sender is dropped only while it is still the attached one |
| Sessions.SessionData.DoDetach | internal/grpc/detachable.go:176-183 | nobody is attached, the detach time is set, and the mark is at the end of the scrollback |
| Sessions.SessionData.ClearAttached | internal/grpc/detachable.go:171-175 | nobody is attached afterwards; the detach time stays as it is |
| Sessions.GRPCService.DetachShellSession | internal/grpc/detachable.go:322-355 | each refusal, an unknown session among them, with its exact condition and no effect; otherwise the override is stored and the signal of the latest attachment is closed |
| Sessions.SessionData.Collect | internal/grpc/detachable.go:761-805 | an undisturbed visit kills an exited session that has no end time and notes the end, ends a due one, and leaves every other one as it is |
| Sessions.RoundedIsNearest | internal/grpc/grpcapi.go:312-312 | the shown duration is the nearest whole second, halves away from zero, for negative durations too |
| Sessions.ShownTTLAgreesWithCollector | internal/grpc/grpcapi.go:288-317 | "unlimited" is shown exactly for the detached sessions that no visit at any time ends; a visit that would end the session implies that no time is shown as left; no time left is shown exactly when under half a second is |
| Sessions.AcceptedIffWithinMaximum | internal/grpc/detachable.go:388-403 | with a cap and unlimited sessions not allowed, the accepted overrides are exactly those that keep the session's time to live under the cap |
| Sessions.LongDetachedIsCollected | internal/grpc/detachable.go:783-801 | such a session is ended by any visit later than the cap after the detach |
| Sessions.LeavingDecidesCollection | internal/grpc/detachable.go:184-194 | some visit ends a session that its client left if and only if the client detached and the time to live is not unlimited |
| Sessions.VisitChanges | internal/grpc/detachable.go:761-805 | a visit ends a session if and only if its shell has exited and no end is noted, or its shell runs, nobody is attached and the time since the detach exceeds the time to live; a visited session with an exited shell is STOPPED |
| Sessions.ShownTTLIsNearest | internal/grpc/grpcapi.go:288-317 | the time shown as left is the nearest whole second to detach time plus time to live less now, and 0 exactly when less than half a second is left |
| Sessions.OverrideAcceptedIff | internal/grpc/detachable.go:388-403 | which overrides are accepted under every policy, and which refusal the others get |
| SessionRuns.StepKeepsInv | internal/grpc/detachable.go:88-118 | every step of pump, clients and collector keeps the invariant on replay, stream, registration and detach time |
| SessionRuns.RunKeepsInv | internal/grpc/detachable.go:298-317 | so does every run from a state that satisfies it |
| SessionRuns.ReplayThenStream | internal/grpc/detachable.go:298-317 | in every run a reattached client was sent the stripped last 256 KiB as of chunk m, then chunks k, k+1, ... in order without a gap, with k >= m - 1: at most one chunk comes twice, and exactly the chunks from m up to k were missed |
| SessionRuns.RegisteredMissesNothing | internal/grpc/detachable.go:88-118 | while a gRPC client stays registered, every chunk since it registered has been sent to it or is being sent |
| SessionRuns.DetachedMeansNobodyAttached | internal/grpc/grpcapi.go:86-97 | in every run, also with REST clients, failed sends and drops, an attached sender means no detach time; so status DETACHED means nobody is attached |
| SessionRuns.ChunkGetsThrough | internal/grpc/detachable.go:88-118 | whatever state a live session is in, a chunk from the shell gets to the attached client in three steps, after all it was sent before |
| SessionRuns.AnyClientReattaches | internal/grpc/detachable.go:298-317 | whatever state a session is in, a new client can reattach: it is sent the stripped last 262144 bytes of scrollback and is then the one attached, with no detach time |
| SessionRuns.FailedSendDropsSender | internal/grpc/detachable.go:104-110 | a failed send leaves nobody attached and the detach time as it was |
| SessionRuns.ExitedIsStopped | internal/grpc/detachable.go:769-776 | a visit to a session with an exited shell kills it and notes the end once, and it is STOPPED after every run from there |
| SessionRuns.UndisturbedVisit | internal/grpc/detachable.go:761-805 | from every state, the separate sections of a visit with nothing in between come to the one visit that VisitChanges describes |
| SessionRuns.RestDetachEndsNothing | internal/grpc/detachable.go:484-513 | a REST call whose client detached ends the session in no run; one whose client dropped can, and then not again |
| SessionRuns.LateVisitEnds | internal/grpc/detachable.go:778-803 | from every reachable state in which a visit is under way and the session has been detached for longer than the cap, the visit ends it, whatever steps come between its sections |
| SessionRuns.AbandonedIsNeverCollected | internal/grpc/shell.go:171-229 | a live session without sender and detach time is not ended in any run in which nobody attaches, no earlier attachment or its call ends only then, and the shell does not exit |
| SessionRuns.AbandonedIsReached | internal/grpc/shell.go:171-229 | a run from a fresh session to such a state: open, detach, reattach, drop |
| SessionRuns.CollectorEndsAttachedIff | internal/grpc/detachable.go:778-803 | in every run from a state in which the collector finds the session detached up to its decision, it ends the session under a client if and only if one has attached in between and is undisturbed since |
| SessionRuns.CollectorMayEndAttached | internal/grpc/detachable.go:778-803 | such a run from a fresh session |
| SessionRuns.OpenerDecidesIff | internal/grpc/shell.go:220-224 | after every run, the call that opened the session finds a detach time, and will end nothing, if and only if there was one before and nobody attached, or a client detached and nobody attached after it |
| SessionRuns.OpenerEndsAttachedIff | internal/grpc/shell.go:220-229 | in every run from its look at the detach time up to its cleanup, that call ends the session if and only if it found none; under a client if and only if the one attached at the look is undisturbed or another has attached and is; with a detach time if and only if a client has detached and nobody attached after it |
| SessionRuns.OpenerMayEndReattached | internal/grpc/shell.go:220-229 | a run from a fresh session in which it ends one that was reattached before the look |
| SessionRuns.OpenerMayEndDetached | internal/grpc/shell.go:220-229 | a run from a fresh session in which it ends one that was reattached and detached between look and cleanup |
| SessionRuns.RestEndsAttachedIff | internal/grpc/detachable.go:491-499 | in every run from the section in which a REST call gives the session up to its cleanup, it ends the session, and does so under a client if and only if one has attached in between and is undisturbed |
| AcquireLocks.LockService.AcquireSession | internal/grpc/acquire.go:46-106 | a lock is granted if and only if the session lives, nobody is attached, no unexpired lock on it exists and an identifier could be drawn; the exact condition of every refusal; the store afterwards |
| AcquireLocks.LockService.ListSessions | internal/grpc/acquire.go:112-165 | exactly the live unattached sessions without an unexpired lock are listed, each once |
| AcquireLocks.LockService.CleanupExpiredLocks | internal/grpc/acquire.go:168-177 | the locks left are exactly those not expired, unchanged |
| AcquireLocks.LockService.ConsumeLock | internal/grpc/shell.go:151-171 | the lock is gone afterwards even when it is refused; the exact condition of an attach and of each refusal |
| AcquireLocks.ListedIffAcquirable | internal/grpc/acquire.go:108-165 | every listed session with a name would be acquired in the same state, and conversely but for one the collector has just ended |
| AcquireLocks.StepKeepsInv | internal/grpc/acquire.go:77-98 | every step keeps: at most one unexpired lock for a session, and no more attaches than grants for an identifier |
| AcquireLocks.CleanupKeepsAcceptable | internal/grpc/acquire.go:168-177 | a cleanup visit that read the clock at any earlier time removes the lock it visits if and only if that was past its end, and never one that would still be accepted |
| AcquireLocks.LockProtocol | internal/grpc/shell.go:151-172 | in every run from an empty store: one unexpired lock for a session; two acceptable ones only at the very instant one expires; an identifier granted once leads to at most one attach, and to none while it is stored |
| AcquireLocks.TwoAcceptedAtExpiry | internal/grpc/acquire.go:82-98 | a run that reaches two acceptable locks on one session |
| AcquireLocks.GrantedLockAttaches | internal/grpc/shell.go:151-171 | a granted lock that is used within 30 seconds leads to one attach and is gone afterwards |
| AcquireLocks.UseAttachesIff | internal/grpc/shell.go:151-171 | using an identifier consumes its lock, and leads to an attach if and only if the lock is stored and not past its end and the session still exists |
| LogStore.MemoryLogStore.Write | internal/logger/logger.go:55-74 | the unbounded log grows by the entry under the next ID, and the store holds its last cap + 1 entries |
| LogStore.MemoryLogStore.GetLogsSince | internal/logger/logger.go:101-120 | the matching stored entries after the given ID, and the ID to continue from |
| LogStore.MemoryLogStore.SearchID | internal/logger/logger.go:137-140 | the binary search finds the boundary below the cursor in the store, whatever was evicted |
| LogStore.MemoryLogStore.GetLogsBefore | internal/logger/logger.go:131-159 | the last `limit` matches before the cursor, oldest first, and whether anything older than them is stored |
| LogStore.MemoryLogStore.GetLogsPage | internal/grpc/system.go:216-244 | refusals of negative arguments, the default limit, otherwise that page |
| LogStore.MemoryLogStore.OpenStream | internal/grpc/system.go:178-191 | the backlog holds a stored match if and only if everything was asked for, or fewer than lastN matches follow it; and the ID the stream follows from |
| LogStore.SinceHolds | internal/logger/logger.go:101-120 | an answer holds an entry if and only if it is stored, lies after the ID and passes every filter, in the order of the IDs |
| LogStore.PageHolds | internal/logger/logger.go:131-159 | a page holds an entry if and only if it is stored, lies before the cursor, passes every filter, and fewer than `limit` matches lie between it and the cursor |
| LogStore.BacklogHolds | internal/grpc/system.go:178-191 | the same of the backlog, for both kinds of seed |
| LogStore.PagingIsExact | internal/logger/logger.go:122-159 | with any writes and evictions between requests, following the oldest ID loads matching entries in ID order without repeats, and an entry if and only if it was still stored at the request that reached back to it |
| LogStore.PagingEnds | internal/logger/logger.go:127-159 | the cursor falls with every page, so a client that keeps asking gets a last page |
| LogStore.PagingIsComplete | internal/logger/logger.go:122-159 | without writes in between, the pages joined are the whole filtered store before the first cursor |
| LogStore.TailIsExact | internal/grpc/system.go:196-210 | successive polls send matching entries in strictly increasing ID order and miss exactly those evicted before a poll could see them |
| LogStore.TailMissesNothing | internal/logger/logger.go:65-71 | with at most cap + 1 writes between polls the polls send every match |
| LogStore.SeedLosesNothing | internal/grpc/system.go:178-191 | following from the last entry of a backlog sends the same as following from the end of the log |
| LogStore.StreamIsExact | internal/grpc/system.go:162-211 | backlog and polls together, for a last-N seed and for everything buffered: in ID order, no repeats; of what was there at opening, exactly the stored matches asked for; of what is written later, exactly what was not evicted before a poll |
| HistoryWindow.WindowWithinRetention | internal/system/history.go:129-168 | the window is never empty and never starts before the retention limit; it ends in the future if and only if an explicit start lies at now or later |
| HistoryWindow.WindowIsAsked | internal/system/history.go:129-168 | the window holds an instant if and only if the one asked for (from and to, else the range back from now, else an hour) and the last 24 hours do, whenever these meet; otherwise it is one second long |
| HistoryWindow.WindowErrors | internal/system/history.go:129-168 | which requests are refused, for which reason first; a lone from or to is ignored |
| HistoryWindow.StepIsAsked | internal/system/history.go:173-196 | the step is the one asked for, but no finer than the native interval and than floor(span / 720); the exact refusals |
| HistoryWindow.BucketsCoverSpan | internal/system/history.go:198-211 | the number of buckets is the smallest that covers the span |
| HistoryWindow.PointCount | internal/system/history.go:173-211 | the step is the smallest allowed one; the series keeps within 720 points if and only if 720 divides the span or the longer of native interval and requested step exceeds floor(span / 720); with a native interval of at least 720 ns it never exceeds 721 |
| HistoryWindow.CapIsExceeded | internal/system/history.go:190-192 | a query with 721 points |
| UsageHistory.BucketEncloses | internal/system/history.go:213-218 | a sample in the window has exactly one bucket, the one whose bounds enclose it, and the guard on the index never drops it |
| UsageHistory.BucketsPartition | internal/system/history.go:223-260 | over all buckets every value of a sample in the window is counted exactly as often as it was recorded |
| UsageHistory.OneSystemSampleIsShown | internal/system/history.go:223-279 | a single sample is shown in the bucket whose bounds enclose it, each of its four fields in its own place |
| UsageHistory.OneStorageSampleIsShown | internal/system/history.go:283-366 | the same for the two fields of a mount or of container storage |
| UsageHistory.SystemSampleShows | internal/system/history.go:223-279 | one more sample adds each value it carries to that field of that bucket, and changes nothing else |
| UsageHistory.StorageSampleShows | internal/system/history.go:283-366 | the same for mounts and container storage |
| UsageHistory.AverageRealMeans | internal/system/history.go:261-279 | an average times the number of values is their sum, and sums add up |
| UsageHistory.AverageUint64Means | internal/system/history.go:281-323 | an average is the quotient of the sum as it wraps at 64 bits by the number of values, rounded down |
| UsageHistory.AverageRealBounds | internal/system/history.go:261-279 | a field is empty if and only if no sample carried it, and otherwise lies between the least and the greatest value |
| UsageHistory.AverageUint64Bounds | internal/system/history.go:281-323 | the same for byte counts whose sum fits into 64 bits |
| UsageHistory.BucketSystemPoints | internal/system/history.go:223-279 | the accumulating loops compute, for every bucket and field, the average of the values that land in the bucket |
| UsageHistory.BucketStoragePoints | internal/system/history.go:283-366 | the same for the two fields of mounts and of container storage |
| UsageHistory.DropBefore | internal/system/history.go:117-123 | what is left starts at the first sample that is not older than the cutoff |
| UsageHistory.AgedKeepsRecent | internal/system/history.go:97-123 | for samples in time order, a sample is dropped if and only if it is older than the cutoff |
| UsageHistory.History.Record | internal/system/history.go:74-95 | every series gets its samples and loses its expired ones; what is kept of each is always the full log less samples older than the retention at some past tick |
| UsageHistory.MountPointsMean | internal/system/history.go:82-87 | a tick appends to the series of each mount the samples of that mount, in order |
| UsageHistory.History.PruneLocked | internal/system/history.go:97-115 | every series is cut at the cutoff, and a mount is removed exactly when nothing of it is left |
| UsageHistory.PruneMore | internal/system/history.go:97-123 | pruning an already pruned series after more was recorded still only drops samples older than the newest cutoff, in whatever order the times come |
| UsageHistory.LeavingOutShowsIff | internal/system/history.go:117-123 | leaving out samples at the front changes the values of a bucket if and only if one of them carries the field and lands there |
| UsageHistory.EarlierSamplesAreInvisible | internal/system/history.go:213-260 | so samples before the window change no bucket |
| UsageHistory.PrunedAwayIsBlank | internal/system/system.go:362-364 | a mount that pruning removed would have had only gaps in the answer |
| UsageHistory.History.Query | internal/system/system.go:335-376 | the window and step are the ones asked for, by the raw arguments; pruning is invisible: whenever the window starts within the retention as of the last record, and so at any time not before it, every bucket of every series equals that of the full, never pruned log, and every mount left out would be all gaps; the exact conditions of the errors |
| UsageHistory.ResolveQuery | internal/system/system.go:335-357 | what the arguments come to before the history is locked: window, step, or the first refusal |
| UsageHistory.RecordMayOutrunQuery | internal/system/system.go:339-358 | a query whose window loses a sample to a record that lands after its clock was read |
| OrphanSweeper.ProcessWatcher.TerminateOrphans | internal/system/process.go:240-361 | the two records afterwards and the processes signalled, as functions of the snapshot and the records before, which SignalledIff, TableIff and IgnoredIff give field by field |
| OrphanSweeper.SweepSignalsExactly | internal/system/process.go:250-346 | a sweep signals exactly the orphans that neither record protects and that are not exempt |
| OrphanSweeper.SignalledIff | internal/system/process.go:250-346 | a process is signalled if and only if its information could be read, its parent is 1, it does not ignore SIGHUP, matches no exclude pattern, is in neither record, and is not a member of a session whose leader is in the ignore list |
| OrphanSweeper.TableIff | internal/system/process.go:250-346 | the record of protected processes afterwards has exactly the present ones that were in either record, are members of a listed leader's session, or are exempt orphans |
| OrphanSweeper.IgnoredIff | internal/system/process.go:352-360 | the ignore list afterwards has exactly those of its own indices that are present process IDs |
| OrphanSweeper.IgnoreListKeeps | internal/system/process.go:352-360 | the clean-up keeps a number in the ignore list if and only if it is a live process ID and smaller than the length of the list |
| OrphanSweeper.ProtectedForGood | internal/system/process.go:240-361 | over every later run of sweeps and registrations, a process in either record that stays alive is never signalled |
| OrphanSweeper.RegisteredIsNeverSignalled | internal/system/process.go:105-118 | so a process registered under the creation lock is never signalled while it lives, although the clean-up loses its ID |
| OrphanSweeper.EarlyMemberIsNeverSignalled | internal/system/process.go:284-301 | a session member that is readable at the first sweep after its leader was registered is protected for good |
| OrphanSweeper.MemberIsSparedIff | internal/system/process.go:240-361 | after any history, one sweep and any registrations, the next sweep spares an orphaned session member if and only if the sweep before recorded it, or it or its leader is still in the ignore list, by registration or as an index |
| OrphanSweeper.LateMemberIsSparedIff | internal/system/process.go:284-360 | a member that was not there at the sweep before is spared if and only if its leader was registered since, or lives and has an ID below the length of the list |
| OrphanSweeper.LateMemberIsSignalled | internal/system/process.go:352-360 | so a late member of a single registered leader is signalled, for every leader and member |
| Quantities.ParseSizeBytes | internal/system/storage.go:431-463 | the result or error of the whole chain, first reason first |
| Quantities.ParseNumberToRat | internal/system/storage.go:465-528 | the rational read from the number's text, or the error |
| Quantities.Pow10Int | internal/system/storage.go:593-603 | the loop computes the power of the magnitude, and 1 for the integer that has none |
| Quantities.ApplyK8sSuffix | internal/system/storage.go:530-570 | the rational times what the suffix stands for, or unknown |
| Quantities.RatCeilToUint64 | internal/system/storage.go:605-621 | the rounded value or the error |
| Quantities.OutcomeMeans | internal/system/storage.go:605-621 | the result is v exactly when v is the least integer not below the value and fits into 64 bits; overflow exactly when the value exceeds 2^64 - 1 |
| Quantities.CeilIgnoresCommonFactors | internal/system/storage.go:605-621 | cancelling common factors, as the rational library does, changes no result |
| Quantities.NumberMeans | internal/system/storage.go:465-528 | every literal of the grammar is read as it is written, unless its exponent does not fit into 64 bits |
| Quantities.SizeIsExact | internal/system/storage.go:431-621 | for every non-negative literal with a known suffix and a 64-bit exponent the result is ceil(mantissa * 10^(exponent - decimals) * suffix), or overflow exactly when that exceeds 2^64 - 1, if and only if the exponent is not the least integer or it makes no difference |
| Quantities.SizeIsLeast | internal/system/storage.go:431-621 | the same said without rationals: the result is the least v with v times the denominator at least the numerator, powers of ten and suffix included |
| Quantities.DecimalSuffixesMean | internal/system/storage.go:530-570 | n, u, m, k, M, G, T, P, E and the empty suffix stand for their powers of ten |
| Quantities.BinarySuffixesMean | internal/system/storage.go:530-570 | Ki to Ei stand for their powers of two |
| Quantities.KnownSuffixes | internal/system/storage.go:530-570 | no other suffix is known |
| Quantities.SomeQuantities | internal/system/storage.go:431-463 | 1.5Gi, +250m, 1E3k and -1, all the way from the text |
| Quantities.SmallestExponentIsMisread | internal/system/storage.go:519-523 | 5e-9223372036854775808 is read as 5, where its value rounds up to 1 |
| Quantities.RefusedLiterals | internal/system/storage.go:445-463 | every other literal is refused, with the first reason that applies |
| MountPaths.UnescapeMountInfoPath | internal/system/storage.go:140-161 | the loop decodes every escape met from the left and keeps every other byte |
| MountPaths.EscapeIsRead | internal/system/storage.go:146-156 | a backslash and three octal digits of a byte become that byte, with anything after them |
| MountPaths.OtherIsRead | internal/system/storage.go:146-160 | every other first byte is kept as it is, with anything after it |
| MountPaths.PlainIsUnchanged | internal/system/storage.go:142-144 | a path without a backslash is itself |
| MountPaths.UnescapeInvertsEscape | internal/system/storage.go:140-161 | decoding undoes octal escaping for every byte string and every escaped set that has the backslash |
| MountPaths.MountPointsReadBack | internal/system/storage.go:141-141 | in particular for the kernel's escaping of space, tab, newline and backslash |
| Environment.CreateEnvVars | internal/system/system.go:567-603 | the loops compute: first requested entries in order, HOME, then the daemon's first entries not seen before |
| Environment.KeysAreDistinct | internal/system/system.go:564-603 | no key occurs twice, HOME included |
| Environment.KeyMeans | internal/system/system.go:571-576 | the key of NAME=VALUE is NAME, even if the value holds further `=`; without a `=` it is the whole entry |
| Environment.OrderIsKept | internal/system/system.go:567-603 | the result is a subsequence of the requested entries, then HOME, then a subsequence of the daemon's |
| Environment.ValuesAreFirst | internal/system/system.go:564-603 | HOME is the given directory; every other key has its first requested value, else the daemon's first value |
| Environment.UserEnvPrecedence | internal/grpc/shellenv.go:52-64 | request variables win over the SHELL, USER and LOGNAME defaults, these over the daemon's environment |

## Left out

- Sessions.SessionData.DoDetach: sets the fields and the mark in one step, where the source takes two mutexes one after the other; the mark is only read while a session is being opened.
- SessionRuns.ReplayThenStream: says nothing of REST clients, because the source registers their sender before it writes the scrollback, so live bytes may come first.
- SessionRuns.ReplayThenStream: treats the replay as delivered, as the source ignores a failure to send it; a live send either reaches the client or fails as a whole.
- Quantities.ParseNumberToRat: does not trim white space from the mantissa, which the regular expression never lets through.
- UsageHistory.AverageRealBounds: averages are over the reals, so float rounding is not covered.
- UsageHistory.BucketStoragePoints: sums wrap at 64 bits as in the source, and the bounds on an average assume that the sum fits.
- Sessions.GRPCService.DetachShellSession: one request at a time; the source tests and closes the signal outside the mutex, so two requests at once can both try to close it.
- SessionRuns.StepKeepsInv: the time of an end is noted in the same step as the kill, where the source notes it right after, outside the mutex.
- OrphanSweeper.EarlyMemberIsNeverSignalled: counts signals aimed at the process itself; one aimed at the process group of another orphan is not modelled.
- OrphanSweeper.ProcessWatcher.TerminateOrphans: a signal reaches one process; that the source signals the process group first, and what a failed signal leads to, is not modelled.
- UsageHistory.History.Query: when a record lands between the clock reading and the lock and the window starts before the retention as of that record, the answer is that of the samples still kept, and no more is promised.
- At most one client attached at a time: the check before an attach and the attach itself are separate sections, so the code does not keep it; the runs allow any number.
- The start of a session (splash text, init progress, non-PTY shells): what they write to the scrollback is the arbitrary text the ring holds when a run starts.
- Removal of sessions and locks from the stores by other handlers, and the delayed removal of ended streams (`cleanupStreamStores`): simple filters by age.
- Acquire and list are single steps on a state of the sessions, except that a cleanup visit may use an old clock reading.
- UsageHistory.BucketSystemPoints: sums and averages are over the reals, so float rounding is not covered.
- Random lock identifiers are parameters; that they do not repeat is stated as a condition where it matters.
- Regular expressions, JSON, times and durations are taken as what parsing made of them; texts of errors and formatting of answers are not modelled.
- Counters (log IDs, positions in the scrollback) are unbounded integers.
- A failure to read the process list ends a sweep without effect and is not a step of the model.
- Processes registered without the creation lock (in `internal/apps`) fall outside the sweeper's guarantee.
- Sleeping between polls, failed sends and cancellation of a log stream; choice of a login shell (`resolveShell`).
- The command-line client, displays, credential helpers, user creation and cgroup readers.
