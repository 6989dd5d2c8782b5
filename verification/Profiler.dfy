/** One CPU profiler: the entry points that JavaScript calls, over the span table and the activation index. */
module Profiler {
  import opened Wrappers
  import opened Buckets
  import opened KHash
  import opened ActivationIndex
  import opened ActivationStack
  import opened ProfilerRun
  import opened SampleThinning

  /** `kh_int_hash_func`: the key itself, as 32 bits. */
  const INT_HASH: int -> nat := key => key % 0x1_0000_0000

  ghost predicate ValidStacks(m: map<int, ActivationStack>) {
    forall c :: c in m ==> m[c].Valid()
  }

  /** The open spans of every context in the span table. */
  ghost function OpenSpans(m: map<int, ActivationStack>): map<int, seq<OpenSpan>>
    requires ValidStacks(m)
  {
    map c | c in m :: m[c].Contents()
  }

  lemma {:induction false} OpenSpansUpdate(m: map<int, ActivationStack>, c: int, s: ActivationStack)
    requires ValidStacks(m) && s.Valid()
    ensures ValidStacks(m[c := s]) && OpenSpans(m[c := s]) == OpenSpans(m)[c := s.Contents()]
    ensures ValidStacks(m - {c}) && OpenSpans(m - {c}) == OpenSpans(m) - {c}
    ensures StackOf(OpenSpans(m), c) == if c in m then m[c].Contents() else []
  {
  }

  lemma {:induction false} NoOpenSpans()
    ensures ValidStacks(map[]) && OpenSpans(map[]) == map[]
  {
  }

  lemma {:induction false} StoppedStep(r: Run, e: Event)
    requires !e.Start?
    ensures !r.running ==> Step(r, e) == r
  {
  }

  function Pushed(r: Run, c: int, span: OpenSpan): Run {
    r.(stacks := r.stacks[c := StackOf(r.stacks, c) + [span]], depth := r.depth + 1)
  }

  lemma {:induction false} EnterStep(r: Run, c: int, span: OpenSpan)
    ensures r.running ==> Step(r, Enter(c, span.traceId, span.spanId, span.startTime)) == Pushed(r, c, span)
  {
  }

  function Closed(r: Run, c: int, top: OpenSpan, time: int, left: nat): Run {
    r.(stacks := if left == 0 then r.stacks - {c} else r.stacks, inserted := r.inserted + [Close(top, time)],
        depth := r.depth - 1)
  }

  lemma {:induction false} ExitStep(r: Run, e: Event, rest: seq<OpenSpan>, top: OpenSpan)
    requires e.Exit? && r.running && StackOf(r.stacks, e.ctx) == rest + [top]
    ensures Step(r, e) == Closed(r.(stacks := r.stacks[e.ctx := rest]), e.ctx, top, e.time, |rest|)
  {
  }

  type SpanTable = HashTable<int, ActivationStack>

  lemma {:induction false} SizeOfOpenSpans(table: SpanTable)
    requires table.Valid() && ValidStacks(table.Contents())
    ensures table.size == |OpenSpans(table.Contents())|
  {
    table.SizeOfContents();
    assert OpenSpans(table.Contents()).Keys == table.Contents().Keys;
  }

  /** Finds the stack of a context, making an empty one if there is none. */
  method FindOrInitStack(table: SpanTable, c: int, alloc: Alloc) returns (it: nat, ok: bool)
    requires table.Valid() && table.nBuckets < MAX_BUCKETS
    modifies table.Repr()
    ensures table.Valid() && fresh(table.Repr() - old(table.Repr()))
    ensures table.Contents() ==
            if ok && c !in old(table.Contents()) then old(table.Contents())[c := Init()] else old(table.Contents())
    ensures ok ==> table.InBucket(it, c)
    ensures ok ==> it < table.vals.Length && c in table.Contents() && table.vals[it] == table.Contents()[c]
    ensures ok <==> c in old(table.Contents()) || old(table.HasRoom(alloc))
    ensures table.nBuckets == old(table.nBuckets) || table.nBuckets == 4 || table.nBuckets <= 4 * old(table.size)
  {
    hide HashTable.Contents, HashTable.Valid, HashTable.InBucket, HashTable.Exists;
    it := table.Get(c);
    ok := true;
    if it == table.nBuckets {
      var ret;
      it, ret := table.Put(c, alloc);
      if ret == -1 {
        return it, false;
      }
      table.SetValue(it, Init(), c);
    }
  }

  /** The table has or gets a place for the context, and its stack a slot or a block. */
  ghost predicate CanPush(table: SpanTable, c: int, alloc: Alloc, arenaAlloc: bool)
    requires table.Valid()
    reads table, table.flags.words, table.keys, table.vals
  {
    var m := table.Contents();
    && (c in m || table.HasRoom(alloc))
    && (arenaAlloc || c !in m || m[c].count < m[c].capacity)
  }

  /** The table part of entering a context. */
  method PushSpan(table: SpanTable, c: int, span: OpenSpan, alloc: Alloc, arenaAlloc: bool) returns (ok: bool)
    requires table.Valid() && table.nBuckets < MAX_BUCKETS && ValidStacks(table.Contents())
    modifies table.Repr()
    ensures table.Valid() && fresh(table.Repr() - old(table.Repr())) && ValidStacks(table.Contents())
    ensures var before := OpenSpans(old(table.Contents()));
            OpenSpans(table.Contents()) == if ok then before[c := StackOf(before, c) + [span]] else before
    ensures ok == old(CanPush(table, c, alloc, arenaAlloc))
    ensures table.nBuckets == old(table.nBuckets) || table.nBuckets == 4 || table.nBuckets <= 4 * old(table.size)
  {
    hide HashTable.Contents, HashTable.Valid, HashTable.InBucket, HashTable.Exists;
    ghost var m := table.Contents();
    OpenSpansUpdate(m, c, Init());
    var it;
    it, ok := FindOrInitStack(table, c, alloc);
    if !ok {
      return;
    }
    ghost var m' := table.Contents();
    var pushed;
    pushed, ok := Push(table.vals[it], span, arenaAlloc);
    if !ok {
      return;
    }
    OpenSpansUpdate(m, c, pushed);
    OpenSpansUpdate(m', c, pushed);
    table.SetValue(it, pushed, c);
    assert m'[c := pushed] == m[c := pushed];
  }

  /** The first part of leaving a context: pops its innermost open span, if the table holds one. */
  method PopSpan(table: SpanTable, c: int)
    returns (top: Option<OpenSpan>, it: nat, left: nat, ghost rest: seq<OpenSpan>)
    requires table.Valid() && ValidStacks(table.Contents())
    modifies table.Repr()
    ensures table.Valid() && table.Repr() == old(table.Repr()) && ValidStacks(table.Contents())
    ensures var before := OpenSpans(old(table.Contents()));
            if top.None? then StackOf(before, c) == [] && table.Contents() == old(table.Contents())
            else
              && StackOf(before, c) == rest + [top.value] && |rest| == left
              && OpenSpans(table.Contents()) == before[c := rest]
    ensures top.Some? ==> it < table.nBuckets && table.InBucket(it, c)
    ensures table.nBuckets == old(table.nBuckets)
  {
    hide HashTable.Contents, HashTable.Valid, HashTable.InBucket, HashTable.Exists;
    ghost var m := table.Contents();
    top, left, rest := None, 0, [];
    OpenSpansUpdate(m, c, Init());
    it := table.Get(c);
    if it == table.nBuckets {
      return;
    }
    var popped;
    popped, top := Pop(table.vals[it]);
    left := popped.count;
    if top.None? {
      return;
    }
    OpenSpansUpdate(m, c, popped);
    table.SetValue(it, popped, c);
    rest := popped.Contents();
  }

  /** The last part of leaving a context: a context without open spans leaves the table. */
  method DropIfEmpty(table: SpanTable, c: int, it: nat, left: nat)
    requires table.Valid() && ValidStacks(table.Contents())
    requires it < table.nBuckets && table.InBucket(it, c)
    modifies table.Repr()
    ensures table.Valid() && table.Repr() == old(table.Repr()) && ValidStacks(table.Contents())
    ensures OpenSpans(table.Contents()) ==
            if left == 0 then OpenSpans(old(table.Contents())) - {c} else OpenSpans(old(table.Contents()))
    ensures table.nBuckets == old(table.nBuckets)
  {
    hide HashTable.Contents, HashTable.Valid, HashTable.InBucket, HashTable.Exists;
    OpenSpansUpdate(table.Contents(), c, Init());
    if left == 0 {
      table.Del(it);
    }
  }

  /** The trace ids whose spans are recorded when only filtered stack traces are wanted, by their hashes. */
  class TraceIdFilter {
    const traceHash: string -> nat
    const table: HashTable<nat, bool>

    ghost predicate Valid()
      reads this, table, table.Repr()
    {
      table.Valid() && table.nBuckets < MAX_BUCKETS
    }

    ghost function Hashes(): set<nat>
      requires Valid()
      reads this, table, table.Repr()
    {
      table.Contents().Keys
    }

    constructor (traceHash: string -> nat, keyHash: nat -> nat)
      ensures Valid() && Hashes() == {} && fresh(table.Repr()) && this.traceHash == traceHash
    {
      this.traceHash := traceHash;
      table := new HashTable<nat, bool>(keyHash);
    }

    method Has(traceId: string) returns (found: bool)
      requires Valid()
      ensures found <==> traceHash(traceId) in Hashes()
    {
      var it := table.Get(traceHash(traceId));
      found := it != table.nBuckets;
    }

    /** `AddTraceIdFilter`; nothing changes when the table cannot grow. */
    method Add(traceId: string, alloc: Alloc)
      requires Valid() && 4 * |Hashes()| < MAX_BUCKETS
      modifies table.Repr()
      ensures Valid() && fresh(table.Repr() - old(table.Repr()))
      ensures Hashes() == old(Hashes()) + (if old(table.HasRoom(alloc)) then {traceHash(traceId)} else {})
    {
      hide HashTable.Contents, HashTable.Valid, HashTable.InBucket, HashTable.Exists;
      table.SizeOfContents();
      var _, ret := table.Put(traceHash(traceId), alloc);
    }

    /** `RemoveTraceIdFilter`. */
    method Remove(traceId: string)
      requires Valid()
      modifies table.Repr()
      ensures Valid() && table.Repr() == old(table.Repr()) && Hashes() == old(Hashes()) - {traceHash(traceId)}
    {
      hide HashTable.Contents, HashTable.Valid, HashTable.InBucket, HashTable.Exists;
      var it := table.Get(traceHash(traceId));
      if it != table.nBuckets {
        table.Del(it);
      }
    }
  }

  /** What each call keeps, with the time of the call as the new `now`. */
  ghost predicate InOrder(r: Run, now: int) {
    Bounded(r, now) && Sound(r)
  }

  lemma {:induction false} InOrderStep(r: Run, e: Event, now: int)
    requires InOrder(r, now) && now < e.time && Punctual(e) && !e.CollectNothing?
    ensures InOrder(Step(r, e), e.time)
  {
    hide Bounded, Sound;
    StepBounded(r, e, now);
    StepSoundIff(r, e, now);
  }

  lemma {:induction false} InOrderLater(r: Run, now: int, later: int)
    requires InOrder(r, now) && now <= later
    ensures InOrder(r, later)
  {
  }

  lemma {:induction false} InOrderNothing(r: Run, time: int, now: int)
    requires InOrder(r, now) && now < time && r.running
    ensures InOrder(Step(r, CollectNothing(time)), time) <==> NoSpans(r) && time <= r.cutoff
    ensures forall a :: a in r.inserted ==> a.startTime < time
  {
    StepBounded(r, CollectNothing(time), now);
    CollectNothingSoundIff(r, now, time);
  }

  lemma {:induction false} TopInOrder(r: Run, c: int, now: int, rest: seq<OpenSpan>, top: OpenSpan)
    requires InOrder(r, now) && r.running && StackOf(r.stacks, c) == rest + [top]
    ensures r.startTime < top.startTime <= now
  {
    assert r.stacks[c][|rest|] == top;
  }

  lemma {:induction false} PeriodInOrder(r: Run, now: int)
    requires InOrder(r, now)
    ensures r.running ==> r.startTime <= r.cutoff
    ensures !r.running ==> r.stacks == map[] && r.inserted == []
  {
  }

  class Profiling {
    var running: bool
    var startTime: int
    var wallStartTime: int
    var sampleCutoffPoint: int
    var maxSampleCutoffDelay: int
    var samplingInterval: int
    var onlyFilteredStacktraces: bool
    var activationDepth: int
    const spanActivations: HashTable<int, ActivationStack>
    const index: Index
    ghost var now: int

    ghost function Repr(): set<object>
      reads this, spanActivations
    {
      {this, index} + spanActivations.Repr()
    }

    /** The parts fit together; this is what a collection without a profile keeps. */
    ghost predicate Formed()
      reads this, index, spanActivations, spanActivations.Repr()
    {
      && spanActivations.Valid() && spanActivations.nBuckets < MAX_BUCKETS
      && ValidStacks(spanActivations.Contents())
      && index.profilerStart == startTime
      && 0 <= maxSampleCutoffDelay
    }

    /** The span state of the run so far. */
    ghost function State(): Run
      requires Formed()
      reads this, index, spanActivations, spanActivations.Repr()
    {
      Run(running, startTime, sampleCutoffPoint, activationDepth, OpenSpans(spanActivations.Contents()), index.inserted)
    }

    ghost predicate Valid()
      reads this, index, spanActivations, spanActivations.Repr()
    {
      Formed() && index.Valid() && InOrder(State(), now)
    }

    function Settings(): Rule
      reads this
    {
      Rule(startTime, wallStartTime, maxSampleCutoffDelay, sampleCutoffPoint, samplingInterval, onlyFilteredStacktraces)
    }

    /** The options a caller gave last. */
    predicate HasOptions(intervalNanos: int, maxDelayNanos: nat, onlyFiltered: bool)
      reads this
    {
      samplingInterval == intervalNanos && maxSampleCutoffDelay == maxDelayNanos
          && onlyFilteredStacktraces == onlyFiltered
    }

    /** `SetupProfiling`. */
    constructor (intervalNanos: int, maxDelayNanos: nat, onlyFiltered: bool)
      ensures Valid() && fresh(Repr()) && now == 0
      ensures State() == INITIAL && HasOptions(intervalNanos, maxDelayNanos, onlyFiltered)
    {
      hide OpenSpans, ValidStacks, HashTable.Contents, HashTable.Valid, Index.Valid, Bounded, Sound;
      running := false;
      startTime, wallStartTime, sampleCutoffPoint := 0, 0, 0;
      maxSampleCutoffDelay, samplingInterval, onlyFilteredStacktraces := maxDelayNanos, intervalNanos, onlyFiltered;
      activationDepth := 0;
      spanActivations := new HashTable<int, ActivationStack>(INT_HASH);
      index := new Index(0);
      now := 0;
      new;
      NoOpenSpans();
      InitialBounded(0);
      InitialSound();
    }

    /** Starts the profiler at `time`, and has it running by `cutoff`. */
    method StartCpuProfiler(time: int, wallTime: int, cutoff: int) returns (started: bool)
      requires Valid() && now < time <= cutoff
      modifies this, index
      ensures Valid() && State() == Step(old(State()), Start(time, cutoff)) && started == !old(running)
      ensures now == time && Repr() == old(Repr())
      ensures started ==> wallStartTime == wallTime
      ensures HasOptions(old(samplingInterval), old(maxSampleCutoffDelay), old(onlyFilteredStacktraces))
    {
      hide OpenSpans, ValidStacks, HashTable.Contents, HashTable.Valid, Index.Valid, InOrder;
      InOrderStep(State(), Start(time, cutoff), now);
      PeriodInOrder(State(), now);
      if running {
        now := time;
        return false;
      }
      SetPeriod(time, wallTime, cutoff);
      running := true;
      started := true;
    }

    /** `StartProfiling` on a profiler that exists already: takes new options, forgets what was accumulated and
        starts.  False when it is running, which the source reports as an error. */
    method StartProfiling(intervalNanos: int, maxDelayNanos: nat, onlyFiltered: bool, time: int, wallTime: int,
        cutoff: int)
      returns (started: bool)
      requires Valid() && now < time <= cutoff
      modifies Repr()
      ensures Valid() && State() == Step(old(State()), Start(time, cutoff)) && started == !old(running)
      ensures now == time && Repr() == old(Repr())
      ensures started ==> HasOptions(intervalNanos, maxDelayNanos, onlyFiltered) && wallStartTime == wallTime
      ensures !started ==> Settings() == old(Settings())
    {
      hide OpenSpans, ValidStacks, HashTable.Contents, HashTable.Valid, Index.Valid, InOrder;
      InOrderLater(State(), now, time);
      PeriodInOrder(State(), now);
      if running {
        now := time;
        return false;
      }
      samplingInterval, maxSampleCutoffDelay, onlyFilteredStacktraces := intervalNanos, maxDelayNanos, onlyFiltered;
      ProfilingReset();
      NoOpenSpans();
      started := StartCpuProfiler(time, wallTime, cutoff);
    }

    /** Opens a span activation in a context; `inFilter` is what `TraceIdFilter.Has` says of the trace id.  When the
        filter keeps the trace out, or an allocation fails, the state stays as it was. */
    method ProfilingEnterContext(contextHash: int, time: int, traceId: string, spanId: string, inFilter: bool,
                                 alloc: Alloc, arenaAlloc: bool)
      returns (entered: bool)
      requires Valid() && now < time && 4 * |State().stacks| < MAX_BUCKETS
      modifies Repr()
      ensures Valid() && now == time && fresh(Repr() - old(Repr()))
      ensures State() ==
              if entered || !running then Step(old(State()), Enter(contextHash, traceId, spanId, time))
              else old(State())
      ensures HasOptions(old(samplingInterval), old(maxSampleCutoffDelay), old(onlyFilteredStacktraces))
      ensures entered <==> running && (!onlyFilteredStacktraces || inFilter)
                           && old(CanPush(spanActivations, contextHash, alloc, arenaAlloc))
    {
      hide OpenSpans, ValidStacks, HashTable.Contents, HashTable.Valid, Index.Valid, InOrder, Step, CanPush;
      if !running || (onlyFilteredStacktraces && !inFilter) {
        StoppedStep(State(), Enter(contextHash, traceId, spanId, time));
        InOrderLater(State(), now, time);
        now := time;
        return false;
      }
      entered := RecordSpan(contextHash, OpenSpan(traceId, spanId, time), alloc, arenaAlloc);
    }

    /** The rest of entering a context, once the span is to be recorded. */
    method RecordSpan(contextHash: int, span: OpenSpan, alloc: Alloc, arenaAlloc: bool) returns (entered: bool)
      requires Valid() && running && now < span.startTime && 4 * |State().stacks| < MAX_BUCKETS
      modifies Repr()
      ensures Valid() && now == span.startTime && fresh(Repr() - old(Repr())) && running
      ensures HasOptions(old(samplingInterval), old(maxSampleCutoffDelay), old(onlyFilteredStacktraces))
      ensures State() ==
              if entered then Step(old(State()), Enter(contextHash, span.traceId, span.spanId, span.startTime))
              else old(State())
      ensures entered == old(CanPush(spanActivations, contextHash, alloc, arenaAlloc))
    {
      hide Formed, OpenSpans, Index.Valid, InOrder, Step, StackOf, CanPush, HashTable.Repr, HashTable.Valid,
          HashTable.Contents;
      EnterStep(State(), contextHash, span);
      InOrderStep(State(), Enter(contextHash, span.traceId, span.spanId, span.startTime), now);
      InOrderLater(State(), now, span.startTime);
      entered := PushCounted(contextHash, span, alloc, arenaAlloc);
    }

    /** Pushes a span onto its context's stack. */
    method PushOpen(contextHash: int, span: OpenSpan, alloc: Alloc, arenaAlloc: bool) returns (entered: bool)
      requires Formed() && 4 * |State().stacks| < MAX_BUCKETS
      modifies spanActivations.Repr()
      ensures Formed() && fresh(Repr() - old(Repr())) && index.Valid() == old(index.Valid()) && unchanged(this)
      ensures var before := old(State()).stacks;
              State() == if entered then
                  old(State()).(stacks := before[contextHash := StackOf(before, contextHash) + [span]])
                         else old(State())
      ensures entered == old(CanPush(spanActivations, contextHash, alloc, arenaAlloc))
    {
      hide OpenSpans, ValidStacks, HashTable.Contents, HashTable.Valid, Index.Valid, StackOf, CanPush;
      SizeOfOpenSpans(spanActivations);
      entered := PushSpan(spanActivations, contextHash, span, alloc, arenaAlloc);
    }

    /** Pushes a span and counts it. */
    method PushCounted(contextHash: int, span: OpenSpan, alloc: Alloc, arenaAlloc: bool) returns (entered: bool)
      requires Formed() && 4 * |State().stacks| < MAX_BUCKETS
      modifies this`activationDepth, this`now, spanActivations.Repr()
      ensures Formed() && fresh(Repr() - old(Repr())) && now == span.startTime
      ensures running == old(running) && index.Valid() == old(index.Valid())
      ensures HasOptions(old(samplingInterval), old(maxSampleCutoffDelay), old(onlyFilteredStacktraces))
      ensures State() == if entered then Pushed(old(State()), contextHash, span) else old(State())
      ensures entered == old(CanPush(spanActivations, contextHash, alloc, arenaAlloc))
    {
      hide OpenSpans, ValidStacks, HashTable.Contents, HashTable.Valid, Index.Valid, StackOf, CanPush;
      entered := PushOpen(contextHash, span, alloc, arenaAlloc);
      now := span.startTime;
      if entered {
        activationDepth := activationDepth + 1;
      }
    }

    /** Closes the innermost open span of a context and spreads it over the index. */
    method ProfilingExitContext(contextHash: int, time: int)
      requires Valid() && now < time
      modifies Repr()
      ensures Valid() && now == time && Repr() == old(Repr())
      ensures State() == Step(old(State()), Exit(contextHash, time))
      ensures HasOptions(old(samplingInterval), old(maxSampleCutoffDelay), old(onlyFilteredStacktraces))
    {
      hide OpenSpans, ValidStacks, HashTable.Contents, HashTable.Valid, HashTable.Repr, Index.Valid, InOrder;
      ghost var r, e := State(), Exit(contextHash, time);
      ghost var before := now;
      InOrderStep(r, e, now);
      now := time;
      if !running {
        return;
      }
      var top, it, left, rest := PopOpen(contextHash);
      if top.None? {
        return;
      }
      ExitStep(r, e, rest, top.value);
      TopInOrder(r, contextHash, before, rest, top.value);
      CloseSpan(contextHash, time, top.value, it, left);
    }

    /** The first part of leaving a context. */
    method PopOpen(contextHash: int) returns (top: Option<OpenSpan>, it: nat, left: nat, ghost rest: seq<OpenSpan>)
      requires Formed()
      modifies spanActivations.Repr()
      ensures Formed() && Repr() == old(Repr()) && index.Valid() == old(index.Valid()) && unchanged(this)
      ensures var before := old(State()).stacks;
              if top.None? then StackOf(before, contextHash) == [] && State() == old(State())
              else
                && StackOf(before, contextHash) == rest + [top.value] && |rest| == left
                && State() == old(State()).(stacks := before[contextHash := rest])
      ensures top.Some? ==> it < spanActivations.nBuckets && spanActivations.InBucket(it, contextHash)
    {
      hide OpenSpans, ValidStacks, HashTable.Contents, HashTable.Valid, HashTable.InBucket, Index.Valid;
      top, it, left, rest := PopSpan(spanActivations, contextHash);
    }

    /** The last part of leaving a context: the closed span goes into the index. */
    method CloseSpan(contextHash: int, time: int, top: OpenSpan, it: nat, left: nat)
      requires Formed() && index.Valid() && startTime <= top.startTime <= time
      requires it < spanActivations.nBuckets && spanActivations.InBucket(it, contextHash)
      modifies this`activationDepth, index, spanActivations.Repr()
      ensures Formed() && index.Valid() && Repr() == old(Repr()) && now == old(now)
      ensures HasOptions(old(samplingInterval), old(maxSampleCutoffDelay), old(onlyFilteredStacktraces))
      ensures State() == Closed(old(State()), contextHash, top, time, left)
    {
      hide OpenSpans, ValidStacks, HashTable.Contents, HashTable.Valid, Index.Valid, HashTable.InBucket;
      index.InsertActivation(Close(top, time));
      DropIfEmpty(spanActivations, contextHash, it, left);
      activationDepth := activationDepth - 1;
    }

    /** `ProfilingReset`: forgets the open and the completed activations. */
    method ProfilingReset()
      requires spanActivations.Valid()
      modifies Repr()
      ensures spanActivations.Valid() && spanActivations.Contents() == map[] && Repr() == old(Repr())
      ensures spanActivations.nBuckets == old(spanActivations.nBuckets)
      ensures index.Valid() && index.inserted == [] && index.profilerStart == old(index.profilerStart)
      ensures unchanged(this)
    {
      hide HashTable.Contents, HashTable.Valid, HashTable.InBucket, HashTable.Exists;
      spanActivations.Clear();
      index.Reset();
    }

    /** Collects the profile of the finished period and starts the next one at `time`; `profile` is what v8
        returned, if anything: its start and the timestamps of its samples.  Without a profile the profiler is in
        order afterwards exactly when it held no span and `time` is not after the old cutoff. */
    method CollectProfilingData(time: int, wallTime: int, cutoff: int, profile: Option<(int, seq<int>)>)
      returns (traces: Option<seq<Trace>>)
      requires Valid() && now < time <= cutoff
      modifies Repr()
      ensures Formed() && now == time && Repr() == old(Repr())
      ensures State() == Step(old(State()), if profile.Some? then Collect(time, cutoff) else CollectNothing(time))
      ensures HasOptions(old(samplingInterval), old(maxSampleCutoffDelay), old(onlyFilteredStacktraces))
      ensures Valid() <==>
              !old(running) || profile.Some? || (NoSpans(old(State())) && time <= old(sampleCutoffPoint))
      ensures traces.Some? <==> old(running) && profile.Some?
      ensures traces.Some? ==> Thinned(traces.value, old(Rule(startTime, wallStartTime, maxSampleCutoffDelay,
                sampleCutoffPoint, samplingInterval, onlyFilteredStacktraces)), old(State()).inserted, profile.value.1,
                0, profile.value.0)
      ensures old(running) ==> wallStartTime == wallTime
    {
      hide OpenSpans, ValidStacks, HashTable.Contents, HashTable.Valid, Index.Valid, InOrder, Thinned, NoSpans, Step;
      traces := None;
      if !running {
        Idle(time, profile.Some?, cutoff);
        now := time;
      } else if profile.None? {
        MovePeriod(time, wallTime);
      } else {
        var built := NextPeriod(time, wallTime, cutoff, profile.value.0, profile.value.1);
        traces := Some(built);
      }
    }

    /** A collection while stopped changes nothing. */
    lemma {:induction false} Idle(time: int, profiled: bool, cutoff: int)
      requires Valid() && now < time && !running
      ensures Step(State(), if profiled then Collect(time, cutoff) else CollectNothing(time)) == State()
      ensures InOrder(State(), time)
    {
      hide OpenSpans, ValidStacks, HashTable.Contents, HashTable.Valid, Index.Valid, InOrder;
      InOrderLater(State(), now, time);
    }

    /** The branch of a collection for which v8 returned no profile. */
    method MovePeriod(time: int, wallTime: int)
      requires Valid() && now < time && running
      modifies this, index
      ensures Formed() && now == time
      ensures State() == Step(old(State()), CollectNothing(time)) && wallStartTime == wallTime
      ensures HasOptions(old(samplingInterval), old(maxSampleCutoffDelay), old(onlyFilteredStacktraces))
      ensures Valid() <==> NoSpans(old(State())) && time <= old(sampleCutoffPoint)
    {
      hide OpenSpans, ValidStacks, HashTable.Contents, HashTable.Valid, Index.Valid, InOrder;
      InOrderNothing(State(), time, now);
      assert index.inserted != [] ==> index.inserted[0] in index.inserted;
      activationDepth := 0;
      startTime := time;
      index.SetStart(time);
      wallStartTime := wallTime;
      now := time;
    }

    /** The rest of a collection with a profile. */
    method NextPeriod(time: int, wallTime: int, cutoff: int, profileStart: int, samples: seq<int>)
      returns (built: seq<Trace>)
      requires Valid() && now < time <= cutoff && running
      modifies Repr()
      ensures Valid() && now == time && Repr() == old(Repr())
      ensures State() == Step(old(State()), Collect(time, cutoff)) && wallStartTime == wallTime
      ensures HasOptions(old(samplingInterval), old(maxSampleCutoffDelay), old(onlyFilteredStacktraces))
      ensures Thinned(built, old(Rule(startTime, wallStartTime, maxSampleCutoffDelay, sampleCutoffPoint,
                samplingInterval, onlyFilteredStacktraces)), old(State()).inserted, samples, 0, profileStart)
    {
      hide OpenSpans, ValidStacks, HashTable.Contents, HashTable.Valid, Index.Valid, InOrder, Thinned, Traces;
      InOrderStep(State(), Collect(time, cutoff), now);
      PeriodInOrder(State(), now);
      built := BuildStacktraces(Settings(), index, profileStart, samples);
      TracesAreThinned(Settings(), old(index.inserted), samples, 0, profileStart);
      BeginPeriod(time, wallTime, cutoff);
    }

    /** Forgets the period that ended and begins the next one. */
    method BeginPeriod(time: int, wallTime: int, cutoff: int)
      requires Formed()
      modifies Repr()
      ensures Formed() && index.Valid() && Repr() == old(Repr())
      ensures State() == Run(running, time, cutoff, 0, map[], [])
      ensures running == old(running) && now == time && wallStartTime == wallTime
      ensures HasOptions(old(samplingInterval), old(maxSampleCutoffDelay), old(onlyFilteredStacktraces))
    {
      hide OpenSpans, ValidStacks, HashTable.Contents, HashTable.Valid, Index.Valid, HashTable.Repr;
      ProfilingReset();
      NoOpenSpans();
      SetPeriod(time, wallTime, cutoff);
    }

    /** The times of a period that begins. */
    method SetPeriod(time: int, wallTime: int, cutoff: int)
      requires Formed() && index.Valid() && index.inserted == []
      modifies this`activationDepth, this`startTime, this`wallStartTime, this`sampleCutoffPoint, this`now,
          index`profilerStart
      ensures Formed() && index.Valid() && now == time && wallStartTime == wallTime
      ensures State() == old(State()).(startTime := time, cutoff := cutoff, depth := 0)
    {
      hide OpenSpans, ValidStacks, HashTable.Contents, HashTable.Valid, Index.Valid;
      activationDepth := 0;
      startTime := time;
      index.SetStart(time);
      wallStartTime := wallTime;
      sampleCutoffPoint := cutoff;
      now := time;
    }

    /** Stops the profiler; `profile` is what v8 returned, if anything. */
    method StopProfiling(time: int, profile: Option<(int, seq<int>)>) returns (traces: Option<seq<Trace>>)
      requires Valid() && now < time
      modifies Repr()
      ensures Valid() && now == time && Repr() == old(Repr())
      ensures State() == Step(old(State()), Stop(time))
      ensures HasOptions(old(samplingInterval), old(maxSampleCutoffDelay), old(onlyFilteredStacktraces))
      ensures traces.Some? <==> old(running) && profile.Some?
      ensures traces.Some? ==> Thinned(traces.value, old(Rule(startTime, wallStartTime, maxSampleCutoffDelay,
                sampleCutoffPoint, samplingInterval, onlyFilteredStacktraces)), old(State()).inserted, profile.value.1,
                0, profile.value.0)
    {
      hide OpenSpans, ValidStacks, HashTable.Contents, HashTable.Valid, Index.Valid, InOrder, Thinned, Traces;
      InOrderStep(State(), Stop(time), now);
      PeriodInOrder(State(), now);
      now := time;
      traces := None;
      if !running {
        return;
      }
      running := false;
      if profile.Some? {
        var built := BuildStacktraces(Settings(), index, profile.value.0, profile.value.1);
        TracesAreThinned(Settings(), old(index.inserted), profile.value.1, 0, profile.value.0);
        traces := Some(built);
      }
      ProfilingReset();
      NoOpenSpans();
    }
  }

  lemma {:induction false} FewContexts(events: seq<Event>)
    ensures |Execute(INITIAL, events).stacks| <= |events|
  {
    if events != [] {
      var front, e := events[..|events| - 1], events[|events| - 1];
      FewContexts(front);
      var m, d := Execute(INITIAL, front).stacks, Execute(INITIAL, events).stacks;
      match e
      case Enter(c, _, _, _) =>
        assert d.Keys <= m.Keys + {c};
        FewerKeys(d.Keys, m.Keys + {c});
      case Exit(c, _) =>
        assert d.Keys <= m.Keys;
        FewerKeys(d.Keys, m.Keys);
      case _ =>
    }
  }

  lemma {:induction false} FewerKeys(a: set<int>, b: set<int>)
    requires a <= b
    ensures |a| <= |b|
  {
    assert b == a + (b - a);
  }

  /** Makes one call, with allocation succeeding. */
  method Call(p: Profiling, e: Event)
    requires p.Valid() && p.now < e.time && Punctual(e) && !p.onlyFilteredStacktraces
    requires 4 * |p.State().stacks| < MAX_BUCKETS
    requires e.CollectNothing? ==> !p.running || (NoSpans(p.State()) && e.time <= p.sampleCutoffPoint)
    modifies p.Repr()
    ensures p.Valid() && p.now == e.time && !p.onlyFilteredStacktraces && fresh(p.Repr() - old(p.Repr()))
    ensures p.State() == Step(old(p.State()), e)
  {
    hide Profiling.Formed, InOrder, Index.Valid, Step, NoSpans, Thinned;
    match e
    case Enter(c, trace, span, t) =>
      var entered := p.ProfilingEnterContext(c, t, trace, span, false, Alloc(true, true, true), true);
    case Exit(c, t) => p.ProfilingExitContext(c, t);
    case Start(t, cutoff) => var started := p.StartCpuProfiler(t, t, cutoff);
    case Collect(t, cutoff) => var traces := p.CollectProfilingData(t, t, cutoff, Some((t, [])));
    case CollectNothing(t) => var traces := p.CollectProfilingData(t, t, t, None);
    case Stop(t) => var traces := p.StopProfiling(t, None);
  }

  /** A whole run on one profiler: after every sequence of calls that does not harm it, its state is that of
      `Execute`, so what is proved about runs is true of the object. */
  method Replay(events: seq<Event>) returns (p: Profiling)
    requires Timed(events) && (forall i :: 0 <= i < |events| ==> 0 < events[i].time) && 4 * |events| < MAX_BUCKETS
    requires forall i :: 0 <= i <= |events| ==> !Harmed(events[..i])
    ensures p.Valid() && p.State() == Execute(INITIAL, events) && fresh(p.Repr())
  {
    hide Profiling.Formed, InOrder, Index.Valid, Step, NoSpans, Execute, Timed, Harmed, OpenSpans,
         HashTable.Valid, HashTable.Contents;
    p := new Profiling(0, 0, false);
    ReplayStarts(events);
    for i := 0 to |events|
      invariant p.Valid() && fresh(p.Repr()) && !p.onlyFilteredStacktraces
      invariant p.State() == Execute(INITIAL, events[..i]) && p.now == LastTime(events, i)
    {
      ReplayOne(p, events, i);
    }
    assert events[..|events|] == events;
  }

  /** The next call of a run. */
  method ReplayOne(p: Profiling, events: seq<Event>, i: nat)
    requires Timed(events) && i < |events| && 0 < events[i].time && 4 * |events| < MAX_BUCKETS
    requires !Harmed(events[..i + 1])
    requires p.Valid() && !p.onlyFilteredStacktraces
    requires p.State() == Execute(INITIAL, events[..i]) && p.now == LastTime(events, i)
    modifies p.Repr()
    ensures p.Valid() && !p.onlyFilteredStacktraces && fresh(p.Repr() - old(p.Repr()))
    ensures p.State() == Execute(INITIAL, events[..i + 1]) && p.now == LastTime(events, i + 1)
  {
    hide Profiling.Formed, InOrder, Index.Valid, Step, NoSpans, Execute, Timed, Harmed, OpenSpans,
         HashTable.Valid, HashTable.Contents;
    ReplayStep(events, i);
    Call(p, events[i]);
  }

  function LastTime(events: seq<Event>, i: nat): int
    requires i <= |events|
  {
    if i == 0 then 0 else events[i - 1].time
  }

  lemma {:induction false} ReplayStarts(events: seq<Event>)
    ensures Execute(INITIAL, events[..0]) == INITIAL
  {
  }

  lemma {:induction false} ReplayStep(events: seq<Event>, i: nat)
    requires Timed(events) && i < |events| && 0 < events[i].time && 4 * |events| < MAX_BUCKETS
    requires !Harmed(events[..i + 1])
    ensures var r := Execute(INITIAL, events[..i]);
            && Execute(INITIAL, events[..i + 1]) == Step(r, events[i])
            && LastTime(events, i) < events[i].time && Punctual(events[i]) && 4 * |r.stacks| < MAX_BUCKETS
            && (events[i].CollectNothing? ==> !r.running || (NoSpans(r) && events[i].time <= r.cutoff))
  {
    hide NoSpans, Step;
    assert events[..i + 1][..i] == events[..i];
    FewContexts(events[..i]);
  }
}
