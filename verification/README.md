# Verified models of the profiler, the remote-configuration client and their support code

Dafny models of the parts of the Splunk OpenTelemetry JavaScript distribution that keep the most state, with proofs of what
they promise. One command checks everything: `dafny verify dfyconfig.toml`.

The project has five parts.

- **Hash table** (`Arithmetic`, `Probing`, `Counting`, `Buckets`, `Bits`, `KHash`). The open-addressing table behind the span
  stacks, the trace filter and the heap-sample tracking: triangular probing, tombstones, two-bit flags packed sixteen to a word,
  and a rehash that moves every entry inside the arrays it already sits in. It refines a finite map, for any hash function.
- **CPU profiler** (`ActivationIndex`, `ActivationStack`, `SampleThinning`, `ProfilerRun`, `SpanOrigins`, `Profiler`,
  `Arena`, `SpanMemory`, `Decimal`, `Hex`). Entering and leaving spans, spreading completed activations over 100 ms bins, looking one up for each sample,
  collecting and stopping. The class `Profiler.Profiling` runs on the hash table and the index; each of its methods is proved
  to be one step of `ProfilerRun.Step`, and the promises are proved over all runs of that step function.  `Profiler.Replay` drives
  one object through a whole run. `SpanOrigins` says, in terms of the calls alone, which spans a run stores and which one a lookup
  returns. `SpanMemory` puts all stacks into one memory, with their blocks in the arena.
- **Remote configuration** (`OpampProtocol`, `OpampSafety`, `OpampOutcomes`, `OpampEffectiveConfig`, `OpampClient`,
  `ControllerProtocol`, `ProfilingController`, `RemoteSystem`, `RemoteOutcomes`). The OpAMP client, the serialized job queue of the profiling controller, and the
  shutdown of `start.ts`. A step is one stretch of code between two awaits, and steps interleave in any order. The classes
  refine the step functions method by method, and `OpampClient.RunClient` and `ProfilingController.RunController` drive one object
  through any run; the promises are proved for every state of every run.
- **Heap profile** (`HeapTracking`, `HeapTree`, `PprofSerializer`, `HeapSerializer`). Generational deduplication of samples on
  the hash table, the explicit-stack traversal that builds the parent map, the unbounded walk up that map, and the interning
  serializers for CPU and heap profiles with their decoding.
- **Smaller algorithms** (`TopologicalSort`, `EnvSubstitution`). The order in which schema definitions are emitted, and the
  `${VAR:-default}` scanner.

## Where the code does not do what one expects

The models follow the code. Each of these is stated as a lemma with the exact condition under which the expectation holds.

- An empty default, as in `${X:-}`, is not closed: the scanner skips one character too many.  A default after a variable named
  `env`, as in `${env:-x}`, is taken for a name, because `env:` is read as the prefix.  Scanning agrees with evaluation in every
  environment exactly when a template has neither (`EnvSubstitution.EvaluatesIffNoneMisread`).  A `$` at the very end is dropped,
  and so is a reference that is not closed, with all that follows it (`EnvSubstitution.UnfinishedDropped`).
- The server's retry delay never takes effect, since the poll that receives it resets the back-off right after setting it
  (`OpampSafety.RetryDelayNeverHonoured`; `RetryDelayExample` is a run).
- The effective configuration recorded as known to the server can be one that no response acknowledged
  (`OpampEffectiveConfig.StaleConfigIsRecorded`).  In every state of a run it is the one acknowledged last exactly when no 200
  response meets a pending configuration that its message did not carry (`RecordedIsCurrentIff`), and some acknowledged one
  exactly when each configuration so taken had been acknowledged before (`RecordedIsKnownIff`).
- Resetting the arena forgets the pages that wait for reuse; it keeps all pages exactly when there are none
  (`Arena.ResetKeepsPagesInUse`), and a second reset in a row does lose one (`Arena.SecondResetForgets`).
- Interning joins keys with `:`, so different functions can share a key.  Every frame of a profile decodes to itself exactly when
  no two different functions of that profile do (`PprofSerializer.DecodesToItselfIff`), which names without `:` guarantee;
  `ColonCollision` is a pair that does.
- A hex string of odd length is not read as the big-endian number it denotes, unless all digits but the last are zero
  (`Hex.BigEndianIff`); "100" in two bytes reads as 4096 (`Hex.OddExample`).
- A collection for which v8 has no profile moves the start time and leaves the spans and the sample cutoff as they were.  The
  profiler is in order afterwards exactly when there is no span and the new start is not after the old cutoff, which a clock that
  only goes forward all but rules out (`ProfilerRun.CollectNothingSoundIff`).  Over whole runs, `ProfilerRun.EveryRunIsSoundIff`
  says when the invariants hold; the next collection with a profile, or the next stop, restores them. `HarmedExample` is a run
  that breaks them.
- When stopping a profiler fails before it gets to the native profiler, the native one runs for good, unknown to the controller;
  `_running` and the native profiler agree exactly when that never happened (`ControllerProtocol.RunningAgreesWithNative`); `MissedStopExample` is a run in which it
  does.

## Model

| member | source | states |
|---|---|---|
| Probing.ProbeClosedForm | src/native_ext/khash.h:234-240 | the incremental probe of a search is, at step s, the start plus the s-th triangular number, modulo the table size |
| Probing.ProbeInjective | src/native_ext/khash.h:234-240 | in a table of 2^k buckets the first 2^k probe positions are all different |
| Probing.ProbeVisitsEveryBucket | src/native_ext/khash.h:234-240 | and so they are all the buckets: each has a step below 2^k that reaches it |
| Probing.FirstReturn | src/native_ext/khash.h:236-240 | the probe is first back at its start at step 2^(k+1)-1, so the wrap-around test cannot fire earlier |
| Probing.NoEarlyReturn | src/native_ext/khash.h:324-329 | within the first n-1 steps a search never meets its start again |
| Bits.EitherIsNotLive | src/native_ext/khash.h:165-167 | the combined flag test on a packed word is the negation of "neither empty nor deleted" |
| Bits.SetBitsAt | src/native_ext/khash.h:171 | setting bits at one of the sixteen positions of a word sets them there and changes no other position |
| Bits.ClearBitsAt | src/native_ext/khash.h:168-170 | clearing bits at one position clears them there and changes no other position |
| Bits.SetUnpacked | src/native_ext/khash.h:171 | setting bits for bucket i in the packed words updates flag i of the unpacked flags and no other |
| Bits.ClearUnpacked | src/native_ext/khash.h:168-170 | the same for clearing |
| Bits.PackedFlags.SetIsDelTrue | src/native_ext/khash.h:171 | on the array: flag i becomes deleted, its empty bit and all other flags stay |
| Bits.PackedFlags.SetIsEmptyFalse | src/native_ext/khash.h:169 | flag i loses its empty bit, all else stays |
| Bits.PackedFlags.SetIsBothFalse | src/native_ext/khash.h:170 | flag i becomes live, all else stays |
| Bits.PackedFlags.IsEither | src/native_ext/khash.h:167 | on the words: says whether the flag is not live |
| Bits.PackedFlags.Fill | src/native_ext/khash.h:255 | filling the words with bytes 0xaa makes every flag "empty, not deleted" |
| Bits.ValueOrder | src/native_ext/khash.h:176 | comparing words compares the numbers they denote |
| Bits.RoundUp32IsRoundUp | src/native_ext/khash.h:176 | the number the smeared word denotes is the next power of two as `Buckets.RoundUp` computes it on integers |
| Bits.RoundUp32IsNextPow2 | src/native_ext/khash.h:176 | smearing 32 bits gives a power of two r with r/2 < x <= r, and 0 when x is 0 or no such power fits in 32 bits |
| Bits.MaskIsRemainder | src/native_ext/khash.h:234-238 | masking a word with one less than a power of two gives the number that `Probing.Mask` gives |
| Buckets.NewBucketsIsPow2 | src/native_ext/khash.h:249-250 | the size a resize settles on is a power of two, at least 4 and at least the request when that fits, and its bound is below it |
| Buckets.NewBucketsIsLeast | src/native_ext/khash.h:249-250 | the size chosen is 4 or less than twice the one asked for |
| Buckets.UpperBoundIsRounded | src/native_ext/khash.h:303 | the bound is 0.77 of the size, rounded |
| Buckets.NextSizes | src/native_ext/khash.h:311-318 | asking for n-1 buckets keeps a table of n, asking for n+1 doubles it (or makes 4 of 0) |
| Buckets.ProbeMeetsEmpty | src/native_ext/khash.h:281 | while fewer buckets are occupied than exist, every probe meets an empty bucket within one cycle |
| Buckets.MissAfterFullCycle | src/native_ext/khash.h:237-241 | a search that has passed every bucket, or stands at an empty one, has a key the table does not hold |
| Buckets.Fill | src/native_ext/khash.h:336-345 | writing a new key into a non-live bucket on its probe path keeps the layout of all keys |
| Buckets.FillValue | src/native_ext/khash.h:336-345 | and adds exactly that key to the map the table stands for |
| Buckets.Tombstone | src/native_ext/khash.h:349-355 | marking a live bucket deleted keeps every other key reachable |
| Buckets.TombstoneValue | src/native_ext/khash.h:349-355 | and removes exactly that key from the map |
| Buckets.OccupyKeepsConsistent | src/native_ext/khash.h:336-345 | taking a bucket for a new key keeps size, occupied count and layout in agreement, whether the bucket was empty or a tombstone |
| Buckets.DeleteKeepsConsistent | src/native_ext/khash.h:349-355 | a deletion keeps them in agreement; the bucket still counts as occupied |
| Buckets.RehashedConsistent | src/native_ext/khash.h:300-303 | after a rehash the occupied count is the size and stays below the new bound |
| KHash.PickUp | src/native_ext/khash.h:270-276 | taking a waiting entry in hand leaves every other entry either waiting in an old bucket or settled in a new one, with its value |
| KHash.Settle | src/native_ext/khash.h:288-291 | writing the entry in hand into an empty new bucket settles it, and disturbs no settled entry |
| KHash.KickOut | src/native_ext/khash.h:283-286 | swapping with a waiting entry settles one key and takes the other in hand, with one fewer waiting |
| KHash.SlotFound | src/native_ext/khash.h:330-333 | where the search of a put ends: at the key if present, else at a free bucket on its path, reusing a tombstone only when the key is absent |
| KHash.RoomRequest | src/native_ext/khash.h:310-318 | the resize a put asks for always leaves room for one more entry |
| KHash.FindEmpty | src/native_ext/khash.h:278-281 | the unguarded probe loop of the rehash ends, at an empty bucket on the key's path |
| KHash.KickOnce | src/native_ext/khash.h:278-292 | one turn writes the entry in hand and either takes a waiting one in hand, with fewer waiting, or is the last |
| KHash.CarryOver | src/native_ext/khash.h:277-293 | the kick-out loop ends, with every entry accounted for and each value still with its key |
| KHash.Rehash | src/native_ext/khash.h:268-296 | the in-place rehash keeps the map, for growing, shrinking and clearing tombstones; no tombstone is left, and every key's earlier probe buckets are occupied |
| KHash.HashTable.LiveBuckets | src/native_ext/khash.h:499-521 | iterating over live buckets meets exactly the keys of the map, with their values |
| KHash.HashTable.constructor | src/native_ext/khash.h:212-214 | a new table stands for the empty map |
| KHash.HashTable.Clear | src/native_ext/khash.h:223-229 | the map becomes empty, the capacity stays |
| KHash.HashTable.Get | src/native_ext/khash.h:230-243 | returns the live bucket of the key with its value, or the bucket count exactly when the map does not hold the key |
| KHash.HashTable.Resize | src/native_ext/khash.h:244-306 | never changes the map; says for each request and each failing allocation whether it succeeds and how many buckets result; after a rehash no tombstone remains |
| KHash.HashTable.RehashTo | src/native_ext/khash.h:267-303 | moves every entry, switches to the new flags, and shrinks the arrays if needed |
| KHash.HashTable.Enlarge | src/native_ext/khash.h:256-265 | grows keys and then values; when either allocation fails the table is still valid with the same map |
| KHash.HashTable.FindSlot | src/native_ext/khash.h:319-335 | returns the key's own bucket if present, else the last deleted bucket on its probe path before the first empty one, or that one when there is none |
| KHash.HashTable.MakeRoom | src/native_ext/khash.h:309-318 | leaves the map unchanged; says exactly when it succeeds, which allocations it needs, and how many buckets result; afterwards the occupied count is below the bound |
| KHash.HashTable.Occupy | src/native_ext/khash.h:336-346 | result 0, 1, 2 for present, empty bucket, reused tombstone; the map gains exactly the key; size and occupied count move accordingly |
| KHash.HashTable.Put | src/native_ext/khash.h:307-348 | the map gains exactly the key, or is unchanged when it was present; it fails exactly when room is needed and an allocation for it fails; the returned bucket holds the key |
| KHash.HashTable.Del | src/native_ext/khash.h:349-355 | the map loses exactly the key of a live bucket; on a free bucket or the end nothing changes |
| KHash.HashTable.SetValue | src/native_ext/khash.h:516-521 | assigning through a bucket changes that key's value only |
| ActivationIndex.LinearScanFindsClosest | src/native_ext/profiling.cpp:277-287 | the reference scan finds, among the activations covering a timestamp, the earliest inserted of those with the greatest start, and none only if none covers |
| ActivationIndex.ScanOneBin | src/native_ext/profiling.cpp:272-294 | scanning the one bin of a timestamp gives the same as scanning all activations |
| ActivationIndex.NewPeriodHolds | src/native_ext/profiling.cpp:256-262 | linking a new period changes no stored activation |
| ActivationIndex.BorderMoves | src/native_ext/profiling.cpp:327-331 | storing an activation in one bin extends the bins that hold it by exactly that bin |
| ActivationIndex.Index.GetActivationBin | src/native_ext/profiling.cpp:249-270 | finds the bin with the given index; the period list only grows by empty periods |
| ActivationIndex.Index.BinInsertActivation | src/native_ext/profiling.cpp:296-315 | one chain gains the activation at its end, in a new bin when the last one is full |
| ActivationIndex.Index.InsertActivation | src/native_ext/profiling.cpp:317-332 | after spreading it, every bin holds in order exactly the inserted activations that overlap it |
| ActivationIndex.Index.FindClosestActivation | src/native_ext/profiling.cpp:272-294 | returns what a linear scan over everything inserted returns, for every timestamp from the start on; stored activations stay |
| ActivationStack.Push | src/native_ext/profiling.cpp:77-118 | through every growth the stack contents gain exactly the new span on top; it fails, and changes nothing, exactly when the stack is full and an arena block is refused |
| ActivationStack.Pop | src/native_ext/profiling.cpp:120-133 | removes and returns the top, nothing when empty |
| ProfilerRun.StepSoundIff | src/native_ext/profiling.cpp:517-1064 | what each call does to the invariants: enter, exit and start keep them as they are, a collection with a profile and a stop restore them, one without a profile breaks them unless there is no span and the start is not after the cutoff |
| ProfilerRun.EveryRunIsSoundIff | src/native_ext/profiling.cpp:854-1064 | in every run, nested or not: while running the depth is the total of all stack counts, every span starts after the start time and the cutoff is not before it, exactly unless a collection without a profile broke this since the last reset |
| ProfilerRun.CollectNothingSoundIff | src/native_ext/profiling.cpp:896-902 | a collection without a v8 profile leaves the profiler in order exactly when no span is open or stored and the new start is not after the old cutoff |
| ProfilerRun.HarmedExample | src/native_ext/profiling.cpp:896-902 | a run that is harmed: a span is open when a collection gets no profile |
| ProfilerRun.EveryNestedRun | src/native_ext/profiling.cpp:983-1064 | in a well-nested run each stack is the program's open contexts entered since the last reset, and completed activations are nested or disjoint |
| ProfilerRun.LookupIsInnermost | src/native_ext/profiling.cpp:272-294 | in a well-nested run a lookup gives the innermost completed activation: strictly inside every other one covering the timestamp |
| SpanOrigins.EverySpanHasOrigin | src/native_ext/profiling.cpp:1019-1057 | in every run, nested or not: every open span was opened in its context with its own ids and time, and every stored activation has the ids and start of one enter and the end of a later exit of the same context, since the last reset |
| SpanOrigins.StoredIff | src/native_ext/profiling.cpp:983-1064 | in a well-nested run the stored activations are exactly those of the matching enter and exit calls whose enter was made while running and since the last reset, each with its own trace id, span id and times |
| SpanOrigins.LookupReturnsInnermostCalls | src/native_ext/profiling.cpp:272-294 | so a lookup returns the ids of the innermost such pair around the timestamp, and nothing exactly when there is none |
| SpanOrigins.NestsAlways | src/native_ext/profiling.cpp:983-1064 | the open contexts that the nesting statements follow are the enter calls not yet matched |
| SpanOrigins.RunningAfterIff | src/native_ext/profiling.cpp:527-541 | the profiler runs exactly when some start has no stop after it |
| SpanOrigins.PeriodIs | src/native_ext/profiling.cpp:535-540 | while running, the start time is that of the latest call that started a period, and the cutoff that of the latest start or collection with a profile |
| Profiler.FindOrInitStack | src/native_ext/profiling.cpp:999-1017 | finds a context's stack or adds an empty one, and nothing else |
| Profiler.PushSpan | src/native_ext/profiling.cpp:999-1023 | the table's open spans change by one push for one context, exactly unless the table or the stack needs memory and is refused; then they do not change |
| Profiler.PopSpan | src/native_ext/profiling.cpp:1041-1055 | pops one context's innermost span, or reports that it has none |
| Profiler.DropIfEmpty | src/native_ext/profiling.cpp:1059-1061 | a context leaves the table exactly when its stack is empty |
| Profiler.TraceIdFilter.Has | src/native_ext/profiling.cpp:990-996 | says whether the filter holds the hash of the trace id |
| Profiler.TraceIdFilter.Add | src/native_ext/profiling.cpp:546-571 | the filter gains exactly that hash, exactly unless its table needs room and gets none |
| Profiler.TraceIdFilter.Remove | src/native_ext/profiling.cpp:573-595 | the filter loses exactly that hash |
| Profiler.Profiling.constructor | src/native_ext/profiling.cpp:371-394 | a new profiler is in the initial state of a run, at time 0, with the given options |
| Profiler.Profiling.StartCpuProfiler | src/native_ext/profiling.cpp:517-544 | is the start step; refuses while running |
| Profiler.Profiling.StartProfiling | src/native_ext/profiling.cpp:611-640 | restarting an existing profiler is the start step with the new options, and changes no option while running |
| Profiler.Profiling.ProfilingEnterContext | src/native_ext/profiling.cpp:983-1033 | is the enter step exactly when running, the trace-id filter lets the trace through, and the memory needed is there; otherwise nothing changes |
| Profiler.Profiling.ProfilingExitContext | src/native_ext/profiling.cpp:1035-1064 | is the exit step |
| Profiler.Profiling.ProfilingReset | src/native_ext/profiling.cpp:854-858 | forgets open and completed activations and keeps the settings |
| Profiler.Profiling.CollectProfilingData | src/native_ext/profiling.cpp:860-925 | is the collect step, or without a profile the step that only moves the start; the traces are the samples of the finished period thinned by the settings it had; the object is valid afterwards exactly when it was stopped, had a profile, or held no span and the new start is not after the cutoff |
| Profiler.Profiling.MovePeriod | src/native_ext/profiling.cpp:896-902 | the branch without a profile, and when it leaves the object valid |
| Profiler.Replay | src/native_ext/profiling.cpp:517-1064 | driven by any sequence of calls that does not harm it, one profiler object ends in the state of the run |
| Profiler.Profiling.StopProfiling | src/native_ext/profiling.cpp:927-963 | is the stop step, with the thinned traces exactly when it was running and v8 had a profile |
| SampleThinning.IncludedAfterStart | src/native_ext/profiling.cpp:645-662 | no sample from before the start passes the cutoff test |
| SampleThinning.CutoffProtectsIff | src/native_ext/profiling.cpp:645-662 | the cutoff test keeps out every sample from before the start exactly when the cutoff is not before the start |
| SampleThinning.TracesAreThinned | src/native_ext/profiling.cpp:778-794 | a sample is kept exactly when it passes the cutoff or the delay, falls into a span if only filtered traces are wanted, and is due after those kept before it; each trace has its sample's wall-clock time and closest activation |
| SampleThinning.BuildStacktraces | src/native_ext/profiling.cpp:754-852 | the sample loop on the binned index produces those traces |
| SpanMemory.SameSpans | src/native_ext/profiling.cpp:77-118 | a write inside a block is not seen by a stack whose block is apart from it |
| SpanMemory.SpanStacks.Push | src/native_ext/profiling.cpp:77-118 | over one shared memory, with blocks allocated, cleared, copied and written, the stack of one context gains one span and every other stack keeps its spans; it fails exactly when the stack is full and the arena has no block |
| SpanMemory.SpanStacks.Pop | src/native_ext/profiling.cpp:120-133 | the stack of one context loses its top, which is returned; all others keep their spans |
| SpanMemory.SpanStacks.Grow | src/native_ext/profiling.cpp:83-115 | a larger block holds the same spans and is apart from the blocks of all stacks |
| SpanMemory.SpanStacks.AllocCleared | src/native_ext/util/arena.cpp:31-36 | is the arena allocation; it clears exactly its block and changes no stack |
| SpanMemory.SpanStacks.Reset | src/native_ext/profiling.cpp:854-858 | after a reset no stack is left, so none refers to a block that the arena, now reset, may hand out again |
| Arena.AllocKeeps | src/native_ext/util/arena.cpp:25-85 | an allocation keeps the invariant, and a successful one returns an aligned block in one page that overlaps no earlier one |
| Arena.BlocksNeverOverlap | src/native_ext/util/arena.cpp:63-97 | in every run: blocks since the last reset are aligned, each between the first and last byte of one page in use, pairwise disjoint; pages waiting for reuse are empty |
| Arena.AllocSucceedsIff | src/native_ext/util/arena.cpp:25-85 | an allocation succeeds exactly when the active page has an aligned place for it, or the next one has, which is a page waiting for reuse if there is one; it takes the first such place and changes no other page |
| Arena.ResetKeepsPagesInUse | src/native_ext/util/arena.cpp:87-97 | a reset keeps exactly the pages in use, in order, emptied, one active; no page is lost exactly when none waited for reuse |
| Arena.SecondResetForgets | src/native_ext/util/arena.cpp:87-97 | a run in which a reset meets a page waiting for reuse and loses it |
| Arena.AlignAligns | src/native_ext/util/arena.cpp:8-16 | the aligned cursor is a multiple of 16 |
| Arena.PagedArena.MemArenaAlloc | src/native_ext/util/arena.cpp:25-39 | is the allocation step on the active page |
| Arena.PagedArena.PagedArenaAlloc | src/native_ext/util/arena.cpp:63-85 | is the allocation step of the proofs |
| Arena.PagedArena.PagedArenaReset | src/native_ext/util/arena.cpp:87-97 | is the reset step of the proofs |
| OpampSafety.StepKeeps | src/opamp/OpAMPClient.ts:189-567 | each stretch of code between awaits keeps the client's invariant, for every response and interleaving |
| OpampSafety.OnePollOrOneTimer | src/opamp/OpAMPClient.ts:502-567 | in every state at most one poll or one timer, never both; a started client always has one; a stopping one has no timer |
| OpampSafety.TriggeredPollNotLost | src/opamp/OpAMPClient.ts:112-119 | every reported status triggers a poll; at any later time the client is stopping, has built a message since, or has a poll due at once |
| OpampSafety.DueStep | src/opamp/OpAMPClient.ts:535-567 | a due poll stays due through every step that neither builds a message nor stops |
| OpampSafety.MessagesCarryStatus | src/opamp/OpAMPClient.ts:211-215 | every message carries the status current when it is built, and while the status is another one a poll is due |
| OpampSafety.RetryDelayNeverHonoured | src/opamp/OpAMPClient.ts:242-245 | every armed timer has delay zero or the polling interval, whatever the server asks for |
| OpampSafety.RetryDelayExample | src/opamp/OpAMPClient.ts:242-245 | a run in which the delay asked for is noted and the timer armed next has the polling interval |
| OpampSafety.OneAttemptPerConfig | src/opamp/OpAMPClient.ts:126-147 | at most one apply pending; consecutive attempts differ in key; the two stored keys are never both set; each attempt reports APPLYING then exactly one of APPLIED and FAILED, with its own hash, and an error text only with FAILED |
| OpampSafety.DroppedIsNotRecorded | src/opamp/OpAMPClient.ts:335-339 | a push during an apply changes nothing, and is attempted afterwards exactly when its key is not the recorded one |
| OpampSafety.SequenceNumbers | src/opamp/OpAMPClient.ts:202-205 | in every run the messages sent are numbered from zero without gaps |
| OpampSafety.ResponseKeeps | src/opamp/OpAMPClient.ts:518-536 | handling a response never arms a timer; if it acts on a pushed configuration it makes the poll repeat; while stopping it changes no remote-config state |
| OpampOutcomes.SettledApplyReports | src/opamp/OpAMPClient.ts:373-391 | at every step of a run where an apply settles, status and last report are APPLIED with no text when it resolved, and FAILED with the error when it was rejected, with the attempt's hash; a poll is then due |
| OpampOutcomes.WantedIff | src/opamp/OpAMPClient.ts:318-339 | what the two stored keys decide is what the log of attempts says: a push is attempted exactly when its hash, or its body if it has no readable hash, is not that of the last attempt, and no apply is in flight unless its hash is unreadable |
| OpampOutcomes.PushAnswered | src/opamp/OpAMPClient.ts:279-374 | at every step of a run a pushed configuration is attempted exactly when it is wanted; then the attempt, its statuses with hash and error, and the configuration handed over are the pushed ones; nothing else but a settling apply changes that state |
| OpampOutcomes.PollSends | src/opamp/OpAMPClient.ts:202-233 | a poll sends one message with the next number and the current status, carrying the effective configuration exactly unless it is the recorded one; no other step sends one |
| OpampOutcomes.PollEndsArming | src/opamp/OpAMPClient.ts:535-553 | a poll that ends arms the only timer, without delay exactly when a poll was asked for meanwhile or its response led to a report, and else with the polling interval |
| OpampOutcomes.StopEnds | src/opamp/OpAMPClient.ts:189-198 | stopping takes one more number for the disconnect message, cancels the timer and wants no further poll |
| OpampOutcomes.BackoffDelay | src/opamp/backoff.ts:28-47 | the delay is the normal interval without failures, else 1, 2, 4, ... seconds up to 60 plus jitter, never below the delay asked for, which is honoured once |
| OpampEffectiveConfig.AcknowledgedIff | src/opamp/OpAMPClient.ts:518-536 | at every step of a run: the recorded configuration is acknowledged afterwards exactly when the server asked for everything anew, or the response took a pending one that its message carried or that was acknowledged before, or took nothing and the old one was |
| OpampEffectiveConfig.RecordedIsKnownIff | src/opamp/OpAMPClient.ts:217-230 | it is acknowledged in every state of a run exactly when each pending configuration taken without being carried had been acknowledged |
| OpampEffectiveConfig.RecordedIsCurrentIff | src/opamp/OpAMPClient.ts:217-230 | it is the configuration acknowledged last in every state of a run exactly when no 200 response takes a pending one its message did not carry |
| OpampEffectiveConfig.StaleConfigIsRecorded | src/opamp/OpAMPClient.ts:217-230 | a run at whose end the client records a configuration that no response acknowledged |
| OpampClient.RunClient | src/opamp/OpAMPClient.ts:168-567 | driven through any run, one client object ends in the state of the run |
| OpampClient.OpAMPClient.ScheduleNextPoll | src/opamp/OpAMPClient.ts:543-553 | is the scheduling step: clears the armed timer and arms one with the given or computed delay, unless stopping |
| OpampClient.OpAMPClient.TriggerPoll | src/opamp/OpAMPClient.ts:560-567 | is the trigger step: asks the running poll to repeat, or arms a timer with delay zero |
| OpampClient.OpAMPClient.SetRemoteConfigStatus | src/opamp/OpAMPClient.ts:490-500 | sets and logs the status with the attempt's hash and the error text |
| OpampClient.OpAMPClient.HandleRemoteConfig | src/opamp/OpAMPClient.ts:272-374 | is the push step of the proofs, and hands over a configuration exactly when an apply becomes pending |
| OpampClient.OpAMPClient.RejectUnreadable | src/opamp/OpAMPClient.ts:298-316 | records the body, reports FAILED without a hash and with the error, and triggers a poll |
| OpampClient.OpAMPClient.BeginApply | src/opamp/OpAMPClient.ts:335-374 | records the key, reports APPLYING, and either fails on a parse error or leaves one apply pending |
| OpampClient.OpAMPClient.ApplySettled | src/opamp/OpAMPClient.ts:373-391 | reports the outcome with the attempt's hash, triggers a poll, and allows the next apply |
| OpampClient.OpAMPClient.ProcessServerResponse | src/opamp/OpAMPClient.ts:235-270 | is the response step: retry delay on an error, otherwise back-off reset, full-state flag, and the pushed configuration |
| OpampClient.OpAMPClient.BuildAgentToServerMessage | src/opamp/OpAMPClient.ts:202-233 | the message carries the current status, and the effective configuration exactly when it differs from the recorded one |
| OpampClient.OpAMPClient.BeginPoll | src/opamp/OpAMPClient.ts:502-516 | is the poll step up to the send; sends nothing when stopping |
| OpampClient.OpAMPClient.HandleResponse | src/opamp/OpAMPClient.ts:518-533 | is the response step for 200, 409, other statuses and failures |
| OpampClient.OpAMPClient.PollResumes | src/opamp/OpAMPClient.ts:516-541 | is the rest of the poll, with its trailing schedule |
| OpampClient.OpAMPClient.Start | src/opamp/OpAMPClient.ts:168-184 | is the start step |
| OpampClient.OpAMPClient.TimerFires | src/opamp/OpAMPClient.ts:551 | the timer callback is the poll step, with that timer gone |
| OpampClient.OpAMPClient.Stop | src/opamp/OpAMPClient.ts:189-198 | is the stop step: no timer armed, no repeat pending |
| ControllerProtocol.StepKeepsNative | src/profiling/ProfilingController.ts:121-219 | each stretch of a job keeps the recorded state equal to the native profiler's, until a stop misses that |
| ControllerProtocol.StepKeeps | src/profiling/ProfilingController.ts:76-88 | and keeps the queue order: finished jobs, the active one and the waiting ones are the jobs enqueued, in order |
| ControllerProtocol.RunningAgreesWithNative | src/profiling/ProfilingController.ts:62-219 | in every state `_running` is what the native profiler runs exactly when every stop got to the native profiler; then it agrees with the recorded effective state at job boundaries, and native start is never called while running; a rejected job does not stop later ones |
| ControllerProtocol.SuccessReachesIff | src/profiling/ProfilingController.ts:121-179 | an apply succeeds exactly when at its end the profiler asked for runs, with the requested interval if that is positive and the local one otherwise and with the requested memory flag, or none when none was asked for, and callgraphs are reached if asked for |
| ControllerProtocol.StopAllEnds | src/profiling/ProfilingController.ts:84-88 | a shutdown job that ends leaves nothing running and always ends well |
| ControllerProtocol.InitialController | src/profiling/ProfilingController.ts:62-74 | the controller starts with the local options running if enabled and available, and records that, and else that it is off |
| ControllerProtocol.StartRecords | src/profiling/ProfilingController.ts:184-199 | an apply that starts the profiler records the options asked for, also when the native profiler refuses, or off when there is none |
| ControllerProtocol.ReapplyCallsNothingIff | src/profiling/ProfilingController.ts:126-165 | re-applying the configuration just applied, successfully or not, waits for nothing, and calls neither start nor stop exactly unless the CPU profiler was asked for, does not run, and can start now |
| ControllerProtocol.MissedStopExample | src/profiling/ProfilingController.ts:201-219 | a run that shuts down with a stop that fails early: nothing is recorded as running, and the native profiler runs |
| ControllerProtocol.ReapplyCallsNothing | src/profiling/ProfilingController.ts:143-151 | re-applying the configuration just applied calls neither start nor stop |
| ControllerProtocol.CallgraphsAppliedRegardless | src/profiling/ProfilingController.ts:90-119 | callgraphs end in the state reached, with the requested interval if that is positive, whatever became of the CPU part of the same apply; asked for and not reached, the apply fails and they stay |
| ProfilingController.RunController | src/profiling/ProfilingController.ts:62-219 | driven through any run, one controller object ends in the state of the run |
| ProfilingController.ProfilingController.StartCpu | src/profiling/ProfilingController.ts:184-199 | is the start part of a job: nothing is recorded as running when the extension is missing or the native profiler refuses |
| ProfilingController.NativeProfiler.Start | src/native_ext/profiling.cpp:611-615 | the native profiler refuses to start twice |
| ProfilingController.ProfilingController.StartInitial | src/profiling/ProfilingController.ts:62-74 | is the initial start, or the recorded disabled state |
| ProfilingController.ProfilingController.Enqueue | src/profiling/ProfilingController.ts:76-88 | appends one job |
| ProfilingController.ProfilingController.BeginStopCpu | src/profiling/ProfilingController.ts:201-213 | forgets the running profiler and stops it, whether or not that gets to the native profiler, or does nothing when none runs |
| ProfilingController.ProfilingController.ApplyCallgraphs | src/profiling/ProfilingController.ts:221-265 | fails exactly when callgraphs were requested and not reached; keeps a positive interval only when active |
| ProfilingController.ProfilingController.ApplyCpuMemory | src/profiling/ProfilingController.ts:121-165 | is the first stretch of an apply: memory without CPU fails, an unchanged request does nothing, a changed one stops first |
| ProfilingController.ProfilingController.RunJob | src/profiling/ProfilingController.ts:76-119 | begins the job at the front and runs it to its first await or its end |
| ProfilingController.ProfilingController.Resume | src/profiling/ProfilingController.ts:154-219 | continues after the stop: records it, starts again if asked to, and finishes the job |
| RemoteSystem.SystemStep | src/start.ts:314-359 | every step of client, controller and shutdown keeps the joint invariant; after shutdown no job is added |
| RemoteSystem.NothingAfterStop | src/start.ts:314-347 | once the synchronous part of `stop` has run, no apply is ever enqueued and no poll timer armed |
| RemoteSystem.NoProfilerAfterShutdown | src/start.ts:344-347 | when the shutdown job has finished no CPU profiler runs, then or later, whatever was queued or in flight, exactly unless a stop failed before it got to the native profiler |
| RemoteOutcomes.StepTells | src/opamp/OpAMPClient.ts:373-391 | every step of client, controller and shutdown keeps reports and finished jobs in agreement |
| RemoteOutcomes.AppliedIffJobEndedWell | src/profiling/ProfilingController.ts:76-119 | in every state of every run each waiting apply has been queued as a job with its own configuration; an attempt has reported APPLIED exactly when its job ended well, and FAILED once handed over exactly when it ended badly, and the client has been told |
| TopologicalSort.CollectsExactly | packages/jsonschema-to-typescript/src/generate.ts:376-388 | collecting finds what every `$ref` anywhere inside a value names, and nothing else, each once |
| TopologicalSort.StripPrefixNames | packages/jsonschema-to-typescript/src/generate.ts:381-382 | the stripped string is the reference without its first `#/$defs/`, and the reference itself when it has none |
| TopologicalSort.PrefixedNames | packages/jsonschema-to-typescript/src/generate.ts:381-382 | `#/$defs/` followed by a name names exactly that definition |
| TopologicalSort.OwnRefIs | packages/jsonschema-to-typescript/src/generate.ts:381-383 | an object refers to a name exactly when its member `$ref` is a string that names it |
| TopologicalSort.EdgeIsCollected | packages/jsonschema-to-typescript/src/generate.ts:358-361 | the references followed from a definition are exactly those that occur in it and name a definition |
| TopologicalSort.Sorter.Visit | packages/jsonschema-to-typescript/src/generate.ts:351-367 | terminates on any reference graph; keeps each visited definition emitted once and in order, and ends with the name visited or being visited |
| TopologicalSort.Sort | packages/jsonschema-to-typescript/src/generate.ts:346-374 | emits every definition exactly once, each reference before its user unless it reaches the user |
| TopologicalSort.ReferenceComesFirst | packages/jsonschema-to-typescript/src/generate.ts:356-366 | a reference that is not part of a cycle comes before its user |
| TopologicalSort.DependenciesFirst | packages/jsonschema-to-typescript/src/generate.ts:356-366 | on an acyclic schema every dependency comes first |
| TopologicalSort.OrderRulesOutCycles | packages/jsonschema-to-typescript/src/generate.ts:356-366 | conversely, an order with every dependency first exists only for acyclic schemas |
| HeapTracking.EmittedOnce | src/native_ext/memory_profiling.cpp:125-142 | one collection emits an id once if it is present and was not tracked, and not at all otherwise |
| HeapTracking.EmittedAreFirsts | src/native_ext/memory_profiling.cpp:125-142 | what is emitted are the first samples of the new ids, all of them, in order |
| HeapTracking.OncePerStretch | src/native_ext/memory_profiling.cpp:120-152 | over any run an id is emitted exactly once for each maximal stretch of collections containing it, at the first of them |
| HeapTracking.CollectRun | src/native_ext/memory_profiling.cpp:118-152 | one object collecting again and again emits at each collection exactly what the statement about runs says |
| HeapTracking.Track | src/native_ext/memory_profiling.cpp:125-142 | emits exactly the samples whose id is new, and marks every id seen with the new generation |
| HeapTracking.Sweep | src/native_ext/memory_profiling.cpp:144-152 | deletes exactly the ids of other generations, while iterating over the buckets |
| HeapTracking.MemoryProfiling.CollectSamples | src/native_ext/memory_profiling.cpp:118-152 | after a collection the tracked ids are exactly the current sample ids |
| HeapTree.BuildTreeMap | src/native_ext/memory_profiling.cpp:160-180 | the traversal ends and puts every node below the root into the map exactly once, with its own name, script and line, and its true parent |
| HeapTree.TreeMapTells | src/native_ext/memory_profiling.cpp:45-51 | for every path down from the root the map has the name, script and line of each node and the id of its predecessor, and it has no other ids |
| HeapTree.WalkUp | src/profiling/utils.ts:111-125 | the unbounded parent walk ends, and visits exactly the path from the node up to the child of the root, or nothing for an unknown id |
| HeapTree.PathEdges | src/native_ext/memory_profiling.cpp:164-180 | every node on a path from the root is in the tree under the node before it |
| HeapTree.OnePathOnly | src/profiling/utils.ts:111-125 | with distinct ids there is only one path to an id: names, scripts, lines and parents agree node by node |
| HeapTree.SampledPath | src/profiling/utils.ts:111-125 | every id in the map ends a path from the root |
| PprofSerializer.LastColon | src/profiling/utils.ts:60 | a string splits at its last colon in one way only |
| PprofSerializer.LocationKeyDetermines | src/profiling/utils.ts:60 | equal location keys have equal function keys and equal lines |
| PprofSerializer.NoColonNoCollision | src/profiling/utils.ts:76 | equal function keys of names without a colon are equal functions |
| PprofSerializer.ColonCollision | src/profiling/utils.ts:60-76 | two different functions with one key |
| PprofSerializer.StringTable.GetIndex | src/profiling/utils.ts:31-39 | indices are dense and stable; the returned one is the string's; index 0 stays the empty string |
| PprofSerializer.Serializer.GetFunction | src/profiling/utils.ts:72-89 | the function table stays in agreement with the string table and all frames interned, with ids 1..n |
| PprofSerializer.Serializer.GetLocation | src/profiling/utils.ts:55-70 | the location table stays in agreement with the function table, with ids 1..n; known ids do not change |
| PprofSerializer.Serializer.MakeLabels | src/profiling/utils.ts:152-178 | the labels read back as the time in milliseconds, the period, and the ids that are present |
| PprofSerializer.TablesDecode | src/profiling/utils.ts:55-100 | every interned frame's location id decodes through the three tables to the first frame with its function key, with its own line, 0 read as -1 |
| PprofSerializer.DecodesToItselfIff | src/profiling/utils.ts:72-89 | all frames of a profile decode to themselves exactly when no two different functions in it share a key |
| PprofSerializer.NoColonDecodes | src/profiling/utils.ts:72-89 | in particular when no function name contains a colon |
| PprofSerializer.SerializeCpuProfile | src/profiling/utils.ts:142-199 | every sample of the result decodes to its stack, and its labels read back; strings occur once with the empty one first, and location and function ids are 1..n in table order |
| PprofSerializer.CpuProfileReadsBack | src/profiling/utils.ts:142-199 | without colons in function names, every location reads back as its own file, function and line, 0 as -1; every sample has no values and its labels are the time in milliseconds, the period, and the ids there are, under their keys |
| HeapSerializer.FramesUp | src/profiling/utils.ts:111-125 | the frames found from a node are those of the nodes on the path from it up to the child of the root: script, name and line |
| HeapSerializer.UpwardFrames | src/profiling/utils.ts:118-122 | the k-th frame on the way up has the script, name and line of the k-th node from the end of the path |
| HeapSerializer.SerializeHeapProfile | src/profiling/utils.ts:102-140 | every sample decodes to the call path of its node, with its size and the collection time; the tables are numbered as for CPU profiles |
| HeapSerializer.HeapProfileReadsBack | src/profiling/utils.ts:102-140 | without colons in function names, every location of a sample reads back as its frame, and every sample as its size and the collection time |
| EnvSubstitution.EnvSubstitute | src/configuration/substitute.ts:24-105 | the indexed scanner computes the state-by-state reading of its input |
| EnvSubstitution.ScanEvaluates | src/configuration/substitute.ts:24-105 | scanning a printed template gives its value, single dollars included, when no default is empty and no variable `env` has one |
| EnvSubstitution.NeverMore | src/configuration/substitute.ts:71-82 | with all variables set, and `env` to a longer value, the output is never longer than the value, and is shorter when some default is misread |
| EnvSubstitution.EvaluatesIffNoneMisread | src/configuration/substitute.ts:71-97 | scanning agrees with evaluation in every environment exactly when no default is empty and no variable `env` has one |
| EnvSubstitution.MisreadExamples | src/configuration/substitute.ts:71-82 | what the scanner makes of `${env:-x}` and `${X:-}b}` when nothing is set |
| EnvSubstitution.UnfinishedDropped | src/configuration/substitute.ts:36-105 | a dollar sign at the end disappears, and so does a reference that is not closed with all that follows |
| Decimal.ParseOfPrint | src/native_ext/util/modp_numtoa.cpp:56-72 | parsing the printed number gives it back, and the print has no colon |
| Decimal.PrintFits | src/native_ext/util/modp_numtoa.cpp:56-72 | at most 20 characters for every int64 |
| Decimal.NoLeadingZero | src/native_ext/util/modp_numtoa.cpp:56-72 | no digit is printed that is not needed |
| Decimal.StrReverse | src/native_ext/util/modp_numtoa.cpp:18-23 | reverses exactly the given range in place |
| Decimal.Litoa10 | src/native_ext/util/modp_numtoa.cpp:56-72 | writes the print of the number and a terminator, in at most 21 characters |
| Hex.HexToBinary | src/native_ext/util/hex.cpp:23-44 | fails exactly when the digits do not fit; otherwise the buffer is the decoded bytes with zeros before them |
| Hex.HexToIntIs | src/native_ext/util/hex.cpp:5-19 | the table has the value of each digit in either case, and -1 for every other character |
| Hex.DecodedAt | src/native_ext/util/hex.cpp:30-41 | every byte of the buffer: zero before the digits, then the low bits of a pair of table entries, where a low entry of -1 sets all bits, and a last single entry as a byte |
| Hex.RoundTrip | src/native_ext/util/hex.cpp:23-44 | lowercase hex that fills the buffer comes back when encoded again |
| Hex.BigEndianIff | src/native_ext/util/hex.cpp:30-41 | the buffer is the big-endian number the digits denote exactly when their count is even or all but the last are zero |
| Hex.OddExample | src/native_ext/util/hex.cpp:39-41 | "100" denotes 256 and is read as 4096 |
| Hex.OddPairsValue | src/native_ext/util/hex.cpp:39-41 | the number an odd count of digits produces instead |

## Left out

- Linked structures: bin chains, period lists, page lists and DFS stacks are sequences, so aliasing and in-place writes through their pointers are not captured. `Profiler` keeps activation stacks as values in the table; that keeping them in one memory comes to the same is proved in `SpanMemory`, whose table of stacks is a map.
- KHash.HashTable: keys of 32 or 64 bits are values of any type, the hash is an arbitrary function, tables stay below 2^31 buckets, bucket counts and indices are unbounded integers (`Bits.RoundUp32IsRoundUp` and `Bits.MaskIsRemainder` tie the 32-bit forms to them), and shrinking reallocations succeed. Tables without values carry a value array here.
- Buckets.UpperBound: `n * 0.77 + 0.5` is computed exactly instead of in floating point, which agrees on powers of two below 2^32.
- Profiler.Profiling.CollectProfilingData: after a collection without a profile that puts the profiler out of order, the model makes no claim about what further calls on the object store or return; the source may index bins before the first.  `ProfilerRun` still says what such runs do to spans.
- Profiler.Profiling.ProfilingEnterContext: what the trace-id filter says of the trace is an argument, the result of `Profiler.TraceIdFilter.Has`; runs are sequences of the calls it lets through, because a filtered enter is still matched by its exit and nesting claims do not hold then.  Validation of id strings is left to the caller.
- ActivationIndex.Index.InsertActivation: allocating bins and periods succeeds.
- ProfilerRun.LookupIsInnermost: timestamps are strictly increasing, as from a monotone clock; entry and exit are well nested.
- SampleThinning.BuildStacktraces: the text of stack lines, and the debug export, are not modelled.
- HeapTracking.MemoryProfiling.CollectSamples: growing the table succeeds, ids are unbounded naturals, and `size * count` is not truncated to 32 bits.
- Decimal.Litoa10: the minimum int64, whose negation overflows, is excluded; the 32-bit and unsigned variants and the floating-point printers are not modelled.
- OpampProtocol.Next: a client is started once; `getEffectiveConfig` does not throw; health, agent description, instance id and the disconnect message are not modelled; message encoding, transport, clock and randomness are inputs of the steps.
- OpampClient.OpAMPClient.HandleRemoteConfig: parsing a configuration is an input, either a parsed configuration or a failure; content types and YAML are not modelled.
- ControllerProtocol.RunJob: `startProfiling` starts, or reports that the extension is missing, or fails because the native profiler runs.  Whether `running.stop()` gets to the native stop is an input; with `src/profiling/index.ts:208-219` it does unless stopping the heap profiler throws, and a failure after it changes nothing. The state `setSnapshotProfilingActive` reaches is an input, so nothing is claimed about callgraphs after shutdown; a `_stopCpu` that finds nothing running finishes in the same step.
- RemoteSystem.Next: of `stop` only the client and the controller are modelled; clearing the recorded effective state at its end is not.
- Collection timers: when profiling stops before its deferred start callback ran, the callback still arms collection timers (`src/profiling/index.ts:174`); the timers are not modelled.
- Memory profiler restart: the native "running" flag is never cleared (`src/native_ext/memory_profiling.cpp:201-213`); start and stop of the v8 heap profiler are not modelled.
- TopologicalSort.Sort: definitions are a map of own keys; a reference named like a property every JavaScript object inherits is not modelled. The rest of the generator, which prints TypeScript, is left out.
- TopologicalSort.Sorter.Visit: the JavaScript call-stack limit is not modelled.
- PprofSerializer.SerializeCpuProfile: protobuf encoding and gzip are foreign; line numbers and times are integers; trace and span ids come as their hex text.
- EnvSubstitution.EnvSubstitute: conversion of a substituted value to a number or boolean is left out.
- EnvSubstitution.EvaluatesIffNoneMisread: a template's names hold no `}` and no `:-` and do not begin with `env:`, and its defaults hold no `}`, because the syntax has no way to write them.
- Option defaulting, exporters, samplers, instrumentation wiring and HTTP attributes: branch tables over library objects.
