# Verified model of the measurement tools

The repository measures serverless functions, memory management and near-memory
hardware. This project models the parts of it that hold state over whole runs and proves
what those runs guarantee.

| files | what they model |
|---|---|
| `NearMapTracer`, `NearMapIndex`, `NearMapAnalyser`, `NearMapLog`, `NearMapEndToEnd` | the page tracer, which keeps one read and one write time per page, the log it prints, and the program that reads the log back and counts read, written, dead-written and newly read bytes |
| `OffloadScheduler`, `LoadProtocol`, `LatencyStats` | the load generator: which requests are offloaded, the protocol of workers, coordinator, request tasks and progress reader, and the statistics printed at the end |
| `WasmMemory`, `UffdHandler` | the resizable memories of the fault benchmark under four strategies, and the userfaultfd handler with its registered ranges |
| `RangeMonitor` | the resource monitor: counters read on ticks and commands, aggregated between `[` and `]` |
| `WramCopy`, `WramAsm` | the copy by parallel tasklets, and the compiled function that is shown to refine it |
| `Tabulator` | the table builder for the plots |
| `Wrappers`, `Arithmetic`, `Text` | shared helpers: options, sums, products and remainders, decimal numbers, lines and fields |

The source's steps are functions on values, and lemmas by induction over runs state what
holds after any number of steps. Runs are sequences grown at their end, so `Run(s)` is
defined from `Run` of all but the last step. Loops, array algorithms and classes of the
source are methods and classes here, each proved against those functions; the fault
handler's object is tied to its world by `HandlesAsWorld`. The load generator's protocol
and the machine that runs the assembly are transition systems: their steps interleave.

## What was found

- The tracer's default timestamp 0 lies in the first phase, so there every touched page
  counts as read and written. From the second phase on the index is exact
  (`IndexExactAtPhaseEnd`).
- A page-size knob of 2^31 makes the tracer print a negative page size, which the
  analyser cannot parse; a phase name with `;` or a line break loses its own name.
  `RoundTripExactly` shows that nothing else goes wrong.
- An access of size 0 makes the tracer visit other pages than those it touches, except at
  a page boundary (`TouchedPagesExact`).
- An offload denominator of 2147483647 overflows the counter (`CounterInRangeExactly`);
  the number of offloads, the windows and the discrepancy bound are as intended exactly
  for smaller denominators or where every request is offloaded anyway
  (`ClosedFormExactly`, `WindowsExactly`, `DiscrepancyExactly`). With a denominator of 0
  the second request never leaves the inner loop (`ZeroDenominatorHangs`).
- Without a single request the progress line divides by zero, which aborts the process.
  This can happen exactly in a full run whose quotas are all zero (`CrashExactly`), and a
  run can be completed exactly until its reader is about to do so (`CanFinishExactly`).
- The progress line loads its counters one after the other: the percentage stays within
  0 to 100, but every full configuration with a request has a run that shows more
  requests received than sent (`PrintedLineOutOfOrderExactly`).
- The fault handler compares an absolute address with the snapshot's size and copies from
  the snapshot's base without an offset. Lazy restoration therefore equals eager
  restoration exactly when every page of the snapshot below its size as an absolute
  address equals the first one and all others are zeros (`LazyFillIsEagerExactly`). At
  usual addresses that means a snapshot of zeros (`HighRangeNeedsZeros`); `LazyFillFails`
  is a run from fresh memories that ends with the wrong bytes.
- Memory registered with userfaultfd is usable up to half of the reserved range; larger
  accesses fault (`UffdRunRefines`).
- Without mprotect the madvise strategy leaves pages above the size accessible, after
  every strict shrink and only then (`IsolationExactly`).
- A monitor update that fails inside a range consumes the counters' moves without
  counting them. For a counter that never goes back the reported sum is right exactly
  when no failed update moved it (`RangeSumExactly`, with an example in
  `FailedUpdateLosesMoves`).
- A line of the first record with a label but no value gives the table one column more
  than that record has values: its row is complete exactly when each label has a value
  (`FirstRowIsFullExactly`). No pair of any record is lost exactly when the names of every
  record are a prefix of the columns (`CompleteExactly`).

## Model

| member | source | states |
|---|---|---|
| NearMapTracer.Tracer.constructor | pin-NearMAP/NearMAP.cpp:200-210 | the shift loop rounds the page-size knob down to a power of two, from a fresh index whose first phase starts at 0 |
| NearMapTracer.Tracer.OnRead | pin-NearMAP/NearMAP.cpp:90-98 | one tick of the clock; every page from the first to the last byte gets its read time, other pages and all write times stay |
| NearMapTracer.Tracer.OnWrite | pin-NearMAP/NearMAP.cpp:100-108 | the same for write times |
| NearMapTracer.Tracer.StampPages | pin-NearMAP/NearMAP.cpp:91-97 | the page loop terminates and stamps exactly the pages of the interval with the old clock value |
| NearMapTracer.Tracer.CountBbl | pin-NearMAP/NearMAP.cpp:110 | adds to the instruction counter, and changes nothing else |
| NearMapTracer.Tracer.IoStub | pin-NearMAP/NearMAP.cpp:129-132 | one tick of the clock, and the bytes are added |
| NearMapTracer.Tracer.RoutineFound | pin-NearMAP/NearMAP.cpp:139-152 | writes its note to the log, and changes nothing else |
| NearMapTracer.Tracer.PhaseStub | pin-NearMAP/NearMAP.cpp:113-127 | appends the phase record and the summary for any iteration order of the page table, pushes the boundary, resets both counters |
| NearMapTracer.Tracer.SummarizeLastAccesses | pin-NearMAP/NearMAP.cpp:51-88 | prints one trace record for each page stamped inside the interval, then the counts |
| NearMapTracer.TallyCountsPages | pin-NearMAP/NearMAP.cpp:55-71 | for any iteration order the three counts are the numbers of pages only read, read and written, and only written in the interval |
| NearMapIndex.ShiftBounds | pin-NearMAP/NearMAP.cpp:91-92 | page p holds exactly the bytes from p * 2^k up to (p + 1) * 2^k |
| NearMapIndex.ValidAccessPages | pin-NearMAP/NearMAP.cpp:91-97 | the pages the loop visits are exactly those holding a byte of [addr, addr + size), also for an empty access at a page boundary |
| NearMapIndex.TouchedPagesExact | pin-NearMAP/NearMAP.cpp:91-97 | for all 64-bit addresses and 32-bit sizes the loop visits the pages of the accessed bytes if and only if the access is valid in the sense of the run theorems: at least one byte without wrapping, or empty at a page boundary above 0 |
| NearMapIndex.StepTimes | pin-NearMAP/NearMAP.cpp:93-131 | accesses, IO and phase ends tick the clock once, other calls do not; only a phase end adds a boundary, the new time |
| NearMapIndex.ClockCounts | pin-NearMAP/NearMAP.cpp:93-131 | over any run the clock is the number of timed events and the last boundary is where the open phase started |
| NearMapIndex.PhaseTimesTile | pin-NearMAP/NearMAP.cpp:113-124 | phase boundaries strictly increase from 0 up to the clock, one more than there are phases: the intervals tile the run |
| NearMapIndex.KeysAreTouched | pin-NearMAP/NearMAP.cpp:94-107 | the index has an entry for exactly the pages some event touched |
| NearMapIndex.StampsArePast | pin-NearMAP/NearMAP.cpp:93-107 | no timestamp of the index lies in the future |
| NearMapIndex.StampsSinceStart | pin-NearMAP/NearMAP.cpp:51-62 | from the second phase on a timestamp lies in the open phase if and only if an event of that phase read (wrote) the page |
| NearMapIndex.IndexExactAtPhaseEnd | pin-NearMAP/NearMAP.cpp:51-133 | at every phase end the compressed index answers read and written as the full event trace does; in the first phase both answers are all touched pages |
| NearMapAnalyser.ParseLog | pin-NearMAP/analyse-results/src/main.rs:64-102 | the line loop computes the parser function; None stands for a panic |
| NearMapAnalyser.ParseAppend | pin-NearMAP/analyse-results/src/main.rs:69-102 | reading two logs one after the other is reading their concatenation |
| NearMapAnalyser.Analyse | pin-NearMAP/analyse-results/src/main.rs:103-139 | one row for each phase with the sizes of its four page sets times the page size |
| NearMapAnalyser.CountPages | pin-NearMAP/analyse-results/src/main.rs:104-124 | for any iteration order the four counters are the sizes of the read, written, dead-write and new-read page sets |
| NearMapAnalyser.NewReadOnlyAtFirstAccess | pin-NearMAP/analyse-results/src/main.rs:109-114 | a page is a new read in a phase if and only if that is its earliest accessing phase and it reads it |
| NearMapAnalyser.DeadFromLastReading | pin-NearMAP/analyse-results/src/main.rs:115-123 | a write is dead if and only if no later phase reads the page: exactly the writing phases at or after its last reading phase |
| NearMapAnalyser.DeadWritesAreASuffix | pin-NearMAP/analyse-results/src/main.rs:115-123 | dead writes of a page form a suffix of its writes, and every write of the final phase is dead |
| NearMapAnalyser.NewReadsAddUp | pin-NearMAP/analyse-results/src/main.rs:109-114 | the new-read counts of all phases add up to the number of pages first accessed by a reading phase: no page is counted twice |
| NearMapLog.ClaimsAreExact | pin-NearMAP/NearMAP.cpp:56-81 | the trace records printed at a phase end are the accesses of that phase's raw events |
| NearMapLog.PhaseRecordFields | pin-NearMAP/NearMAP.cpp:117-119 | a phase line splits into phase, page size, start, end, name, instructions and IO bytes, in this order |
| NearMapLog.TraceRecordFields | pin-NearMAP/NearMAP.cpp:72-80 | a trace line splits into trace, an empty field, start, end, page, the letters R and W as far as they apply, and an empty field |
| NearMapLog.SummaryRecordFields | pin-NearMAP/NearMAP.cpp:82-83 | a summary line gives only-read, read-and-written, only-written and all pages, in this order |
| NearMapLog.OldPhaseLine | pin-NearMAP/analyse-results/src/main.rs:86-100 | a phase line of the older form, without the two counters, is read with zeros in their place |
| NearMapLog.ParsesRecords | pin-NearMAP/analyse-results/src/main.rs:69-102 | parsing the records of any run never hits an unwrap on None and yields the expected phases, with other lines ignored |
| NearMapLog.RoundTrip | pin-NearMAP/analyse-results/src/main.rs:64-102 | parsing the text of the log rebuilds page size, start, instructions, IO bytes and accesses of every phase, names shifted by one |
| NearMapLog.RoundTripExactly | pin-NearMAP/NearMAP.cpp:117-119 | for every finished run the log rebuilds the phases if and only if the page size is at most 2^30 and no name contains a semicolon or line break |
| NearMapLog.BadPhaseBreaks | pin-NearMAP/NearMAP.cpp:117-119 | the first bad page size or name makes the analyser panic or gives the next phase a wrong name |
| NearMapLog.NamesAreFinal | pin-NearMAP/analyse-results/src/main.rs:94-100 | the waiting name goes to the next phase, and a name once given never changes |
| NearMapLog.CountersAreConserved | pin-NearMAP/NearMAP.cpp:110-132 | instructions and IO bytes summed over the phases of the log and the open phase equal the totals of all calls, as 64-bit numbers |
| NearMapLog.OpenCounters | pin-NearMAP/NearMAP.cpp:110-132 | at any moment the two counters hold the totals since the last phase event |
| Text.DecimalRoundTrip | pin-NearMAP/analyse-results/src/main.rs:79-93 | a printed 64-bit number parses back to itself |
| Text.DecimalByDigits | pin-NearMAP/NearMAP.cpp:117-119 | a number prints as the digits of its tenth part followed by its last digit, without leading zeros |
| Text.LinesUnlines | pin-NearMAP/analyse-results/src/main.rs:66-70 | reading lines gives back the records written with line breaks |
| NearMapEndToEnd.AnalysisMatchesEvents | pin-NearMAP/analyse-results/src/main.rs:103-139 | from raw events to analyser output: every row equals the one defined on the events alone, pages read, pages written, written pages no later phase reads, read pages no earlier phase touched, times the page size; in phase 0 read and written are both all touched pages |
| NearMapEndToEnd.ExpectedPhaseAt | pin-NearMAP/NearMAP.cpp:113-133 | phase i has the name of phase event i - 1, and the totals and accesses of the events between the two boundaries |
| OffloadScheduler.ChooseRequests | faasmspeed/src/main.rs:239-294 | the request loop chooses target and pool slot of request i as the closed definitions say, and counts the offloads; an empty pool is the index error |
| OffloadScheduler.NextCounter | faasmspeed/src/main.rs:247-250 | for denominators from 1 on the inner loop terminates with the reduced counter, whatever the counter was |
| OffloadScheduler.ZeroDenominatorHangs | faasmspeed/src/main.rs:243-250 | with a denominator of 0 the first request passes and the guard of the second request's loop holds after any number of turns |
| OffloadScheduler.SlotIsRemainder | faasmspeed/src/main.rs:290-293 | request i uses pool slot i modulo the pool size |
| OffloadScheduler.CounterIsCycle | faasmspeed/src/main.rs:243-250 | for denominators below the largest 32-bit value the counter runs den, 1, 2, ..., den, 1, ... for ever |
| OffloadScheduler.CounterInRangeExactly | faasmspeed/src/main.rs:243-250 | the counter stays between 1 and den for all requests if and only if den is below the largest 32-bit value |
| OffloadScheduler.OffloadCountExact | faasmspeed/src/main.rs:247-256 | the exact number of offloads among the first n requests, for every n, every numerator and every denominator below 2147483647 |
| OffloadScheduler.ClosedFormExactly | faasmspeed/src/main.rs:239-256 | for all 32-bit numerators and positive denominators: that number is right for every n if and only if the denominator is below 2147483647 or the numerator reaches it |
| OffloadScheduler.EveryWindowIsExact | faasmspeed/src/main.rs:247-256 | below the largest denominator any den requests in a row hold min(max(num, 0), den) offloads |
| OffloadScheduler.WindowsExactly | faasmspeed/src/main.rs:239-256 | every window holds that number if and only if the denominator is below 2147483647 or the numerator reaches it |
| OffloadScheduler.Discrepancy | faasmspeed/src/main.rs:247-256 | below the largest denominator, -num <= den * count - n * num <= num * (den - num - 1) at every moment |
| OffloadScheduler.DiscrepancyExactly | faasmspeed/src/main.rs:239-256 | for a proper fraction that bound holds at every moment if and only if the denominator is below 2147483647 |
| LoadProtocol.InvStep | faasmspeed/src/main.rs:220-303 | every enabled step of every participant keeps the protocol invariant |
| LoadProtocol.ReachableInv | faasmspeed/src/main.rs:305-423 | the invariant holds after every run, for any number of workers, monitors and requests, in any interleaving |
| LoadProtocol.BarrierStep | faasmspeed/src/main.rs:308 | every step keeps the barrier's account: its arrivals are exactly the participants waiting in its generation, fewer than all, and a participant is at most one generation behind, only once released |
| LoadProtocol.LoadInsideMonitoring | faasmspeed/src/main.rs:341-396 | no request exists before every connected host got `[`, none in a dry run and all hosts otherwise; no `]` is sent before every request of every worker is finished and joined |
| LoadProtocol.EveryHostIsMonitored | faasmspeed/src/main.rs:326-396 | in a full run that is not dry no request exists before all hosts got `[`, and at the end every host got one `[` and one `]`; in a dry run no host ever gets either |
| LoadProtocol.EqualWaits | faasmspeed/src/main.rs:221-301 | at the end all participants, the coordinator included, have waited once in a oneshot run and four times in a full one |
| LoadProtocol.CountersOrdered | faasmspeed/src/main.rs:233-281 | received <= sent <= total in every reachable state, and the total is the sum of all quotas from the progress reader's start on |
| LoadProtocol.CountersCountTasks | faasmspeed/src/main.rs:262-287 | in every reachable state the received count is the number of requests that finished well, and the sent count the number of requests past their start |
| LoadProtocol.GrandTotalIsSum | faasmspeed/src/main.rs:228-235 | the total of the counters theorem is the plain sum of the quotas |
| LoadProtocol.PrintedPercentage | faasmspeed/src/main.rs:360-373 | a percentage to be printed is between 0 and 100; its divisor is 0 if and only if every quota is 0 |
| LoadProtocol.CrashExactly | faasmspeed/src/main.rs:361-372 | the process can abort in the division if and only if the run is a full one and has no request |
| LoadProtocol.PrintedLineOutOfOrderExactly | faasmspeed/src/main.rs:363-372 | for every configuration: some run prints more requests received than sent if and only if the run is a full one with at least one request |
| LoadProtocol.FinalAccounts | faasmspeed/src/main.rs:383-423 | at the end sent equals total, received counts the successful results, results and errors of each worker are its quota, and the offload count is the scheduler's |
| LoadProtocol.NoDeadlock | faasmspeed/src/main.rs:221-301 | in every reachable state that is not final and not aborted some step other than an idle poll is enabled |
| LoadProtocol.NothingAfterTheEnd | faasmspeed/src/main.rs:301-423 | in a final or aborted state no step at all is enabled |
| LoadProtocol.StepCounts | faasmspeed/src/main.rs:220-423 | each step except an idle poll decreases the remaining work |
| LoadProtocol.RunsAreFinite | faasmspeed/src/main.rs:220-423 | the number of steps that are not idle polls is bounded by the initial work, in oneshot and full runs |
| LoadProtocol.CanFinish | faasmspeed/src/main.rs:220-423 | every reachable state can be completed to a final one, unless its reader is already bound to divide by zero |
| LoadProtocol.CanFinishExactly | faasmspeed/src/main.rs:357-383 | a reachable state can be completed if and only if it is not the case that all quotas are zero and the reader has passed its check of the flag |
| LatencyStats.TakeIntervals | faasmspeed/src/main.rs:475-480 | the backward pass over the array in place yields the differences of the original start times, never below zero |
| LatencyStats.DifferencesRebuild | faasmspeed/src/main.rs:475-477 | prefix sums of the differences rebuild every original start time |
| LatencyStats.IntervalSum | faasmspeed/src/main.rs:475-480 | with more than two requests the intervals sum to (last - first) + (second - first) |
| LatencyStats.OtherFieldsSurvive | faasmspeed/src/main.rs:474-506 | sorting by any key and the pass preserve the multiset of all other fields |
| LatencyStats.WrappedSquare | faasmspeed/src/main.rs:544 | a deviation that wrapped below zero still has the right square modulo 2^128 |
| LatencyStats.SquaresAgree | faasmspeed/src/main.rs:544 | the wrapped sum of squares is the true sum modulo 2^128 |
| LatencyStats.SumOfSquaresExact | faasmspeed/src/main.rs:544 | the wrapped sum of squares is the true one if and only if that is below 2^128 |
| LatencyStats.SummaryInOrder | faasmspeed/src/main.rs:532-543 | for sorted non-empty data all quantiles are elements, in order, and the average lies between the extremes when the plain sum fits |
| LatencyStats.SummaryByPosition | faasmspeed/src/main.rs:532-544 | minimum, maximum and the five quantiles are the elements at 0, n - 1, n/100, n/4, n/2, 3n/4 and 99n/100; average and variance are the plain sum and the true sum of squares divided by n whenever these fit 128 bits |
| LatencyStats.SummaryOfNothing | faasmspeed/src/main.rs:532-544 | without data every entry is 0 and nothing is divided by 0 |
| WasmMemory.WMemory.constructor | faultspeed/src/faultspeed.cpp:286-293 | a fresh mapping: size 0, no page accessible, none present |
| WasmMemory.FreshIsEmpty | faultspeed/src/faultspeed.cpp:286-293 | a fresh mapping, also after registration with userfaultfd, satisfies what the run theorems ask of their first state and holds no bytes |
| WasmMemory.WMemory.ResizeWavm | faultspeed/src/faultspeed.cpp:348-365 | shrinking maps the range anew without access, growing grants access |
| WasmMemory.WMemory.ResizeDontneed | faultspeed/src/faultspeed.cpp:376-398 | shrinking drops the pages and takes access away only if asked to, growing grants access |
| WasmMemory.WMemory.ResizeUffd | faultspeed/src/faultspeed.cpp:406-416 | shrinking drops the pages, protection never changes |
| WasmMemory.WMemory.FillWithData | faultspeed/src/faultspeed.cpp:322-333 | the byte loop stores the counting pattern over the clamped range, or faults exactly when a page of it has no access; byte by byte, every address from the start up to the end holds x plus its distance modulo 256, an end before the start means the end of memory, and no other byte changes |
| WasmMemory.WMemory.CopyFrom | faultspeed/src/faultspeed.cpp:367-370 | copying byte by byte stores the other memory's bytes, also when both are the same object, and faults exactly when one of them cannot be read or stored |
| WasmMemory.WMemory.RestoreFromWavm | faultspeed/src/faultspeed.cpp:367-370 | resize and copy together are the restore operation |
| WasmMemory.WMemory.RestoreFromDontneed | faultspeed/src/faultspeed.cpp:400-403 | the same for the madvise strategy, with and without mprotect |
| WasmMemory.WMemory.RestoreFromUffd | faultspeed/src/faultspeed.cpp:418-421 | the same for userfaultfd |
| WasmMemory.WMemory.SideEffect | faultspeed/src/faultspeed.cpp:313-320 | reading all bytes in use succeeds if and only if every page in use is accessible |
| WasmMemory.ResizeKeepsInv | faultspeed/src/faultspeed.cpp:348-416 | after any resize no page at or above the size is present |
| WasmMemory.ResizeMeans | faultspeed/src/faultspeed.cpp:348-416 | every strategy's resize truncates, or appends zeros |
| WasmMemory.OperationByPosition | faultspeed/src/faultspeed.cpp:322-421 | byte by byte, what the abstract operations mean: a resize keeps what lies below both sizes and adds zeros, a restore yields the other memory, a reading changes nothing |
| WasmMemory.FillByPosition | faultspeed/src/faultspeed.cpp:322-333 | a fill writes x + (a - from) modulo 256 at every address a from its start up to its end or the end of memory, and nothing else |
| WasmMemory.FillBackwards | faultspeed/src/faultspeed.cpp:322-333 | where the end lies before the start the difference wraps around: every byte from the start on is written |
| WasmMemory.FillMeans | faultspeed/src/faultspeed.cpp:322-333 | both for the bytes of a memory of pages after a fill that did not fault |
| WasmMemory.StoreAllFaults | faultspeed/src/faultspeed.cpp:322-333 | a run of stores faults if and only if one of its addresses lies in a page without access |
| WasmMemory.PerformMeans | faultspeed/src/faultspeed.cpp:322-421 | any operation that does not fault means what the byte sequence says, under every strategy |
| WasmMemory.MmapRunRefines | faultspeed/src/faultspeed.cpp:322-403 | any run of resizes, restores, fills and reads, mixing mmap and madvise with and without mprotect, never faults and holds exactly the abstract bytes |
| WasmMemory.UffdRunRefines | faultspeed/src/faultspeed.cpp:406-421 | a run under userfaultfd faults if and only if an operation reaches the upper half of the range, and otherwise holds exactly the abstract bytes |
| WasmMemory.UffdAccessible | faultspeed/src/faultspeed.cpp:559 | every page in use is accessible if and only if the size is at most half the range |
| WasmMemory.NoStaleBytes | faultspeed/src/faultspeed.cpp:348-403 | after a shrink no later byte depends on anything that was above the new size |
| WasmMemory.NoStaleBytesUffd | faultspeed/src/faultspeed.cpp:406-421 | the same under userfaultfd, where the faults too do not depend on it |
| WasmMemory.IsolationExactly | faultspeed/src/faultspeed.cpp:376-398 | exactly the pages in use stay accessible throughout a run if and only if no operation shrinks the memory without mprotect |
| WasmMemory.StrategiesAgree | faultspeed/src/faultspeed.cpp:348-421 | two runs that ask for the same sizes, contents and fills under different strategies end with the same bytes |
| UffdHandler.Handler.Add | faultspeed/src/faultspeed.cpp:553-565 | appends the mapping and opens the lower half |
| UffdHandler.Handler.Remove | faultspeed/src/faultspeed.cpp:567-579 | erases the first mapping of the base, or reports that there is none |
| UffdHandler.Handler.SetSnapshot | faultspeed/src/faultspeed.cpp:548-551 | replaces the snapshot and nothing else |
| UffdHandler.Handler.HandleFault | faultspeed/src/faultspeed.cpp:477-535 | the first covering mapping decides; bounds, protection flag and snapshot comparison select the answer; only the owner's page changes, and only answered faults are counted |
| UffdHandler.JudgeByCases | faultspeed/src/faultspeed.cpp:486-534 | the answer in plain numbers: wrong mapping outside the 8 GiB, out of bounds from the size on, then the protection flag, then the start of the faulting page against the snapshot's size |
| UffdHandler.HandlesAsWorld | faultspeed/src/faultspeed.cpp:477-535 | in a valid world the handler object answers a fault as the world's step does and leaves all objects in the world's next state |
| UffdHandler.AddsAsWorld | faultspeed/src/faultspeed.cpp:553-565 | what the object's Add promises leaves all objects in the state of the world's step |
| UffdHandler.RemovesAsWorld | faultspeed/src/faultspeed.cpp:567-579 | what the object's Remove promises, its answer included, is the world's step |
| UffdHandler.AddOpensExactly | faultspeed/src/faultspeed.cpp:553-565 | registering opens exactly the first 2^20 pages, appends the mapping and changes nothing else |
| UffdHandler.RemoveExactly | faultspeed/src/faultspeed.cpp:567-579 | the exception is the answer if and only if the memory has no mapping; otherwise its first mapping is erased and no byte or protection changes |
| UffdHandler.FaultFindsOwner | faultspeed/src/faultspeed.cpp:489-502 | every fault in a registered range finds a mapping, and every mapping holding the address has the same owner |
| UffdHandler.OwnerIsJudged | faultspeed/src/faultspeed.cpp:503-518 | for such a fault the second range check never fires, the bounds are the owner's, and the page filled is the page accessed |
| UffdHandler.StepKeepsValid | faultspeed/src/faultspeed.cpp:477-579 | every add, remove, resize, snapshot change and access keeps mappings, registrations and accounts consistent, and never ends the process |
| UffdHandler.RemoveKeepsValid | faultspeed/src/faultspeed.cpp:567-579 | removing a registered memory always finds its mapping |
| UffdHandler.FaultsAreConserved | faultspeed/src/faultspeed.cpp:519-533 | over any run faults plus pages given by the kernel equal pages present plus pages ever dropped, for every memory and in total |
| UffdHandler.AccessOutcome | faultspeed/src/faultspeed.cpp:513-533 | however pages are filled, an access completes if and only if its page is accessible and it is in bounds, else it traps and changes nothing |
| UffdHandler.AccessMeans | faultspeed/src/faultspeed.cpp:513-533 | under zero filling a write changes its byte only, and a read changes nothing and yields the byte at its address |
| UffdHandler.RunMeans | faultspeed/src/faultspeed.cpp:477-579 | over any run with zero filling all memories hold exactly the bytes the steps say: faults and registrations cannot be seen |
| UffdHandler.HighRangesFillZeros | faultspeed/src/faultspeed.cpp:525-533 | ranges above every possible snapshot size are filled with zeros in every run, whichever snapshot is set |
| UffdHandler.LazyFillIsEagerExactly | faultspeed/src/faultspeed.cpp:525-533 | for any base address: reading every page of a lazily restored memory, in any order, yields the snapshot if and only if each page of the snapshot is the one its fault installs, the first page where base + offset is below the snapshot's size and zeros elsewhere |
| UffdHandler.HighRangeNeedsZeros | faultspeed/src/faultspeed.cpp:525-533 | for a base at or above the snapshot's size it yields the snapshot if and only if that holds only zeros |
| UffdHandler.LazyFillFails | faultspeed/src/faultspeed.cpp:525-533 | a run from two fresh memories after which the lazily restored one differs from its snapshot |
| UffdHandler.LowRangeCopiesFirstPage | faultspeed/src/faultspeed.cpp:525-529 | a fault below the snapshot's size installs the snapshot's first page, whichever page faulted |
| RangeMonitor.CpuStat.Update | statmon/src/cpustat.rs:46-80 | the previous totals are kept and the lines overwrite counters as far as they parse; the first call reads twice; after success each total is the last number the file gives for it times the clock scale modulo 2^64 |
| RangeMonitor.CpuStat.TotalsMs | statmon/src/cpustat.rs:82-88 | each entry is the counter's move in unsigned 64-bit arithmetic |
| RangeMonitor.IoStat.Update | statmon/src/iostat.rs:38-66 | every device that is not ignored overwrites the same counters; after success each counter is the number of the last such device that reaches it |
| RangeMonitor.Stats.constructor | statmon/src/stats.rs:283-302 | fresh statistics: extremes at the opposite ends, nothing counted, no range open |
| RangeMonitor.Stats.UpdateNet | statmon/src/stats.rs:586-622 | each difference is stored and its reference moved before the next number is parsed |
| RangeMonitor.Stats.UpdateAll | statmon/src/stats.rs:338-413 | files in the source's order, early return where one fails, aggregation only at the end and only inside a range |
| RangeMonitor.Stats.AggregateEach | statmon/src/stats.rs:198-203 | every statistic is aggregated once |
| RangeMonitor.Stats.BeginRange | statmon/src/stats.rs:304-308 | opens the range and resets every aggregate |
| RangeMonitor.Stats.EndRange | statmon/src/stats.rs:310-313 | closes the range and keeps all aggregates |
| RangeMonitor.Stats.Command | statmon/src/main.rs:35-60 | the answer to each command byte: `]` sends the statistics of its own update after closing the range, `?` those at hand, every other byte nothing; the connection closes exactly on `q` or a failed update |
| RangeMonitor.Answers | statmon/src/main.rs:35-60 | the same of the specified session: packets, range flag, readings used and closing, for every command byte |
| RangeMonitor.PacketCarriesRange | statmon/src/main.rs:45-53 | the packet sent for a `]` that closes a range carries, for each of the twenty counters, the sum of its moves since the last `[` less the lost ones and the number of updates; without a failed update the sum is the plain move |
| RangeMonitor.StoreCounters | statmon/src/cpustat.rs:60-68 | number k of the line, times the scale modulo 2^64, overwrites counter k for every k before the first number that does not parse; the others keep their values, and success means that no number that was needed failed to parse |
| RangeMonitor.CountersByPosition | statmon/src/cpustat.rs:60-68 | the same of the specification used by all monitor theorems |
| RangeMonitor.CpuFileByPosition | statmon/src/cpustat.rs:46-80 | after a successful update each total is the number at its position on the last totals line that reaches it, times the scale; context switches, running and blocked processes are those of their last lines; the previous totals are those from before, or of the first reading |
| RangeMonitor.IoFileByPosition | statmon/src/iostat.rs:38-66 | each disk counter is the number at its position of the last device that is not ignored and reaches it |
| RangeMonitor.NetByPosition | statmon/src/stats.rs:586-622 | the four network references become fields 1, 3, 9 and 10 of the line |
| RangeMonitor.GaugesShowTheFiles | statmon/src/stats.rs:338-413 | after a successful update every other statistic shows the files: load average, the last value given for each gauge, running and blocked processes at 35 and 36 |
| RangeMonitor.FailureStopsReading | statmon/src/stats.rs:338-413 | a number that does not parse stops the update: references, processor and disk counters of the files after it are not touched |
| RangeMonitor.CounterIsFileNumber | statmon/src/stats.rs:338-413 | after a successful update each of the twenty counters is the number its file gives for it, as a signed 64-bit number |
| RangeMonitor.Update | statmon/src/stats.rs:338-413 | no update, successful or not, ever leaves a statistic with mixed kinds: the mismatch panics are unreachable |
| RangeMonitor.UpdateEffect | statmon/src/stats.rs:338-413 | after a successful update each of the twenty difference statistics is its counter's move modulo 2^64; a failed one changes no aggregate |
| RangeMonitor.StartupStarts | statmon/src/main.rs:66-73 | the two startup updates lead to the state the service starts from |
| RangeMonitor.AggregatesAreRecorded | statmon/src/stats.rs:191-203 | in every reachable state sum, minimum, maximum and count are those of exactly the values recorded since the last `[` |
| RangeMonitor.DeltasTelescope | statmon/src/stats.rs:338-413 | inside a range the recorded differences of each counter add up to its move since the last `[`, less what failed updates consumed |
| RangeMonitor.RangeSum | statmon/src/main.rs:45-53 | the sum reported at `]` is the counter then minus the counter at the last `[` minus the lost moves, modulo 2^64, whatever happened between |
| RangeMonitor.NoFailureNoLoss | statmon/src/main.rs:30-63 | if every update since the last successful `[` succeeded nothing is lost, for any mix of ticks, queries and commands of any connections |
| RangeMonitor.SuccessfulRangeSum | statmon/src/main.rs:30-63 | in that case the sum reported at `]` is the counter it reads minus the counter the last `[` read |
| RangeMonitor.RangeSumInFileNumbers | statmon/src/main.rs:45-53 | then the reported sum is the number in the file read by `]` minus the number in the file read by the last `[`, scaled for processor times |
| RangeMonitor.LossOfMonotone | statmon/src/stats.rs:338-413 | a counter that never goes back loses at most its move, and loses nothing if and only if no failed update moved it |
| RangeMonitor.RangeSumExactly | statmon/src/main.rs:45-53 | for a counter that never goes back and moves less than 2^63 in all, the reported sum is the plain difference if and only if no failed update since the last `[` moved that counter |
| RangeMonitor.FailedUpdateLosesMoves | statmon/src/stats.rs:586-594 | a concrete range in which five bytes arrive and the reported sum is 0, because a failed `[` of another connection moved the reference first |
| RangeMonitor.QuietRangeReport | statmon/src/main.rs:40-53 | with only ticks and queries between `[` and `]` the sum depends on the two readings alone and the count is the number of ticks plus one |
| RangeMonitor.FrozenOutside | statmon/src/stats.rs:409-411 | outside a range the aggregates stay as they are over any run without a successful `[` |
| RangeMonitor.ExtremesBracketSum | statmon/src/stats.rs:198-203 | the extremes of an integer statistic are recorded values, and min * cnt <= sum <= max * cnt whenever the true total fits 64 bits |
| WramCopy.TaskletMain | memspeed/dpusrc/wramcopy.c:14-26 | the two loops of one tasklet copy the words it owns, in place, and touch no other |
| WramCopy.OnlyTheOwnerWrites | memspeed/dpusrc/wramcopy.c:18-22 | in every interleaving index i is written only by tasklet i mod T, and only below the word count |
| WramCopy.CopyIsComplete | memspeed/dpusrc/wramcopy.c:14-26 | when all tasklets have finished, in any interleaving, the target is the source below the word count (if there is a repetition) and unchanged above, and every index was written exactly `run_repetitions` times |
| WramCopy.TurnsCountDown | memspeed/dpusrc/wramcopy.c:16-24 | the steps left to a tasklet are its total less the turns it got |
| WramCopy.EnoughTurnsHalt | memspeed/dpusrc/wramcopy.c:14-26 | every schedule that gives each tasklet enough turns ends with the complete copy |
| WramAsm.InstructionRefines | memspeed/dpubin/wramcopy.s:18-92 | no instruction traps, and each stands for zero, one or two steps of the C loop from the corresponding state |
| WramAsm.StepCorresponds | memspeed/dpubin/wramcopy.s:18-92 | one instruction of any of the four tasklets keeps machine and C system in correspondence |
| WramAsm.AssemblyRefinesC | memspeed/dpubin/wramcopy.s:18-92 | every interleaving of instructions corresponds to an interleaving of C steps with the same buffers |
| WramAsm.InstructionCounts | memspeed/dpubin/wramcopy.s:43-86 | every instruction brings its tasklet closer to its return |
| WramAsm.TurnsUseUpInstructions | memspeed/dpubin/wramcopy.s:18-92 | a tasklet that has had as many turns as its budget has returned |
| WramAsm.AssemblyCopies | memspeed/dpubin/wramcopy.s:18-92 | for all word counts up to 6144 and all 32-bit repetition counts the four tasklets return and leave the buffer the C code leaves |
| WramAsm.AssemblyOfOneTasklet | memspeed/dpubin/wramcopy.s:18-92 | a single tasklet on its own returns with what the C function of that tasklet promises |
| Tabulator.DetectFields | faasmspeed/graphs/tabulator.py:17-27 | the detection loop with its early stop finds the specified columns |
| Tabulator.StripIsInner | faasmspeed/graphs/tabulator.py:23 | a stripped header is the part of the text between its outer white space |
| Tabulator.LabelsByPosition | faasmspeed/graphs/tabulator.py:23-27 | a line of n cells gives n/2 columns; column name j is header, underscore and the text at position 2j + 1 |
| Tabulator.PairsByPosition | faasmspeed/graphs/tabulator.py:39-47 | a line of n cells has (n - 1)/2 pairs; pair j has the text at 2j + 1 in its name and the text at 2j + 2 as its value |
| Tabulator.EmitLine | faasmspeed/graphs/tabulator.py:38-48 | the pairs of a line are written or skipped one by one, up to the index error; what is added to the open row are labels of this line with the text after each, and other rows stay |
| Tabulator.Tabulate | faasmspeed/graphs/tabulator.py:17-48 | the program computes the specified table, or fails exactly where the specification does; every value written in column j of row k stands, on a line of record k, right after the label that with its header names column j |
| Tabulator.ValuesStayInTheirColumns | faasmspeed/graphs/tabulator.py:38-48 | in any log processed without an index error the value in column j was logged under the name of column j |
| Tabulator.RowsComeFromRecords | faasmspeed/graphs/tabulator.py:31-48 | every row holds pairs of its own record, in the record's order |
| Tabulator.RecordsComeFromLines | faasmspeed/graphs/tabulator.py:32-47 | record k holds only pairs of lines between the k-th header line and the next |
| Tabulator.EveryCellIsRight | faasmspeed/graphs/tabulator.py:31-48 | every written cell has the name of its column, and its value is the text after its label on a line of its record |
| Tabulator.CompleteExactly | faasmspeed/graphs/tabulator.py:31-48 | no pair is lost and no index error happens if and only if the names of every record are a prefix of the columns |
| Tabulator.FirstRowIsFullExactly | faasmspeed/graphs/tabulator.py:18-48 | in a processed log the first record fills all columns if and only if each of its labels has a value |
| Tabulator.ColumnsAreTheFirstRecord | faasmspeed/graphs/tabulator.py:18-27 | in a well-paired log the columns are the names of the first record, whatever follows |
| Tabulator.OneSchemaIsComplete | faasmspeed/graphs/tabulator.py:17-48 | if every record has the first one's names, no pair is lost and every row has a value for every column |

## Left out

- NearMapIndex.ValidRun: runs stay below 2^64 events, and every access is one whose page loop is right; `TouchedPagesExact` shows that these are all the accesses but those that wrap around the address space and empty ones inside a page, which the instrumentation never reports.
- NearMapTracer.Tracer.OnRead: requires that the last page is not the largest 64-bit number, where the source's page loop would never end.
- The iteration order of hash tables is a parameter of the phase events; instrumentation, symbols and process exit are reduced to the order of events.
- OffloadScheduler.NextCounter: requires a positive denominator; 0 is covered by `ZeroDenominatorHangs`, and negative denominators, for which the loop may step over its exit, are not modelled.
- LoadProtocol: HTTP, sockets, timers and failures to connect; a request task finishes with an arbitrary outcome, and the quota of a function, a rounded product of floating-point numbers, is given.
- LoadProtocol.PrintedPercentage: the counters are unbounded integers; 64-bit overflow of the multiplication by 100 is not modelled.
- LatencyStats.SummaryInOrder: the index products `3 * n` and `99 * n` do not overflow, and the square root, the printed averages and the results of the sort beyond being a sorted permutation are not modelled.
- WasmMemory: kernel calls are specified on whole pages and never fail; sizes are page-aligned and at most the reserved range, as the kernel demands; huge pages are not modelled.
- `resizeNoProtect` keeps old bytes above the size and implements no resizable memory.
- UffdHandler.RunMeans: a memory not registered with the handler is accessed in bounds, and a registered one is resized by the userfaultfd strategy only; faults are handled one at a time, before the next step.
- UffdHandler: the destruction of a memory that is still registered, write-protection faults in runs (ranges are registered without that mode), event reading and worker threads.
- RangeMonitor: splitting the text of the monitored files into numbers, the packet's text, performance counters (their readings are arbitrary integers), and missing files, missing network interfaces or interface lines without 17 fields, which stop the process.
- RangeMonitor.AggregatesAreRecorded: sums of the one floating-point statistic are exact reals, and the update count does not overflow.
- WramAsm: the machine's instructions are given their documented meaning on 32-bit words; the linker's addresses are any layout with the two buffers and parameters apart.
- `mramcopy.c` and the other memory benchmarks: `mramcopy.c` shares one cache among tasklets and mixes units, so the copy theorem does not hold of it.
- Tabulator: reading files, quoting and the replacement of dashes in the header line; a line is given by its comma-separated cells.
- The scheduling simulator declares data types only; plots, scripts and build files have no algorithm to model.
