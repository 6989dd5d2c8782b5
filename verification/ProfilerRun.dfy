/** What a run of the CPU profiler does to its spans, as a state machine over the calls it receives. */
module ProfilerRun {
  import opened Wrappers
  import opened ActivationIndex
  import opened ActivationStack

  /** The profiler's span state: the open activations of each context and the completed ones, in order.  Samples
      before `cutoff` fall into the call that started the period. */
  datatype Run = Run(
    running: bool, startTime: int, cutoff: int, depth: int, stacks: map<int, seq<OpenSpan>>,
        inserted: seq<SpanActivation>)

  datatype Event =
    | Enter(ctx: int, traceId: string, spanId: string, time: int)
    | Exit(ctx: int, time: int)
    | Start(time: int, cutoff: int)
    | Collect(time: int, cutoff: int)
    /** A collection for which v8 returns no profile. */
    | CollectNothing(time: int)
    | Stop(time: int)

  const INITIAL := Run(false, 0, 0, 0, map[], [])

  function Close(o: OpenSpan, time: int): SpanActivation {
    SpanActivation(o.traceId, o.spanId, o.startTime, time)
  }

  function StackOf(stacks: map<int, seq<OpenSpan>>, ctx: int): seq<OpenSpan> {
    if ctx in stacks then stacks[ctx] else []
  }

  /** One call that the trace-id filter lets through. */
  function Step(r: Run, e: Event): Run {
    match e
    case Enter(c, trace, span, t) =>
      if !r.running then r
      else r.(stacks := r.stacks[c := StackOf(r.stacks, c) + [OpenSpan(trace, span, t)]], depth := r.depth + 1)
    case Exit(c, t) =>
      var stack := StackOf(r.stacks, c);
      if !r.running || stack == [] then r
      else
        var rest := stack[..|stack| - 1];
        r.(stacks := if rest == [] then r.stacks - {c} else r.stacks[c := rest],
           inserted := r.inserted + [Close(stack[|stack| - 1], t)],
           depth := r.depth - 1)
    case Start(t, cutoff) =>
      if r.running then r else Run(true, t, cutoff, 0, r.stacks, r.inserted)
    case Collect(t, cutoff) =>
      if !r.running then r else Run(true, t, cutoff, 0, map[], [])
    case CollectNothing(t) =>
      if !r.running then r else r.(startTime := t, depth := 0)
    case Stop(t) =>
      if !r.running then r else r.(running := false, stacks := map[], inserted := [])
  }

  function Execute(r: Run, events: seq<Event>): Run {
    if events == [] then r else Step(Execute(r, events[..|events| - 1]), events[|events| - 1])
  }

  /** Timestamps come from a monotone clock and are all different. */
  ghost predicate Timed(events: seq<Event>) {
    && (forall i, j :: 0 <= i < j < |events| ==> events[i].time < events[j].time)
    && (forall i :: 0 <= i < |events| ==> Punctual(events[i]))
  }

  /** The cutoff is read after the start. */
  predicate Punctual(e: Event) {
    e.Start? || e.Collect? ==> e.time <= e.cutoff
  }

  // ----- what every run keeps

  ghost function TotalOpen(stacks: map<int, seq<OpenSpan>>): nat {
    if exists c :: c in stacks then
      var c :| c in stacks;
      |stacks[c]| + TotalOpen(stacks - {c})
    else 0
  }

  lemma {:induction false} TotalWithout(stacks: map<int, seq<OpenSpan>>, c: int)
    requires c in stacks
    ensures TotalOpen(stacks) == |stacks[c]| + TotalOpen(stacks - {c})
    decreases |stacks|
  {
    var d :| d in stacks && TotalOpen(stacks) == |stacks[d]| + TotalOpen(stacks - {d});
    if d != c {
      assert (stacks - {c}).Keys == stacks.Keys - {c} && (stacks - {d}).Keys == stacks.Keys - {d};
      TotalWithout(stacks - {d}, c);
      TotalWithout(stacks - {c}, d);
      assert stacks - {c} - {d} == stacks - {d} - {c};
    }
  }

  lemma {:induction false} TotalReplaced(stacks: map<int, seq<OpenSpan>>, c: int, s: seq<OpenSpan>)
    ensures TotalOpen(stacks[c := s]) == TotalOpen(stacks) - |StackOf(stacks, c)| + |s|
    ensures TotalOpen(stacks - {c}) == TotalOpen(stacks) - |StackOf(stacks, c)|
  {
    TotalWithout(stacks[c := s], c);
    assert stacks[c := s] - {c} == stacks - {c};
    if c in stacks {
      TotalWithout(stacks, c);
    } else {
      assert stacks - {c} == stacks;
    }
  }

  /** What holds after every call. */
  ghost predicate Bounded(r: Run, now: int) {
    && (!r.running ==> r.stacks == map[] && r.inserted == [])
    && (r.running ==> r.startTime <= now)
    && (forall c :: c in r.stacks ==> r.stacks[c] != [])
    && (forall c, i :: c in r.stacks && 0 <= i < |r.stacks[c]| ==> r.stacks[c][i].startTime <= now)
    && (forall a :: a in r.inserted ==> a.startTime < a.endTime <= now)
  }

  /** What the profiler relies on while running: `activationDepth` is the total of the stack counts, every stored
      activation starts after `startTime`, and no sample from before `startTime` passes the cutoff. */
  ghost predicate Sound(r: Run) {
    r.running ==>
      && r.depth == TotalOpen(r.stacks)
      && r.startTime <= r.cutoff
      && OpenAfter(r.stacks, r.startTime) && StoredAfter(r.inserted, r.startTime)
  }

  ghost predicate SpansAfter(spans: seq<OpenSpan>, start: int) {
    forall i :: 0 <= i < |spans| ==> start < spans[i].startTime
  }

  ghost predicate OpenAfter(stacks: map<int, seq<OpenSpan>>, start: int) {
    forall c :: c in stacks ==> SpansAfter(stacks[c], start)
  }

  ghost predicate StoredAfter(inserted: seq<SpanActivation>, start: int) {
    forall a :: a in inserted ==> start < a.startTime
  }

  lemma {:induction false} StackChangesAfter(stacks: map<int, seq<OpenSpan>>, c: int, rest: seq<OpenSpan>,
      top: OpenSpan, start: int)
    requires StackOf(stacks, c) == rest + [top]
    ensures OpenAfter(stacks, start) <==> OpenAfter(stacks[c := rest], start) && start < top.startTime
    ensures rest == [] ==> (OpenAfter(stacks, start) <==> OpenAfter(stacks - {c}, start) && start < top.startTime)
  {
    hide SpansAfter;
    OneMoreSpan(rest, top, start);
    var less := stacks[c := rest];
    assert forall d :: d in stacks && d != c ==> less[d] == stacks[d];
    if OpenAfter(less, start) && start < top.startTime {
      forall d | d in stacks ensures SpansAfter(stacks[d], start) {
        assert SpansAfter(less[d], start);
      }
    }
    if OpenAfter(stacks, start) {
      assert SpansAfter(stacks[c], start);
      forall d | d in less ensures SpansAfter(less[d], start) {
        assert d != c ==> SpansAfter(stacks[d], start);
      }
    }
    if rest == [] && OpenAfter(stacks - {c}, start) && start < top.startTime {
      forall d | d in stacks ensures SpansAfter(stacks[d], start) {
        assert d != c ==> d in stacks - {c};
      }
    }
  }

  lemma {:induction false} OneMoreSpan(spans: seq<OpenSpan>, span: OpenSpan, start: int)
    ensures SpansAfter(spans + [span], start) <==> SpansAfter(spans, start) && start < span.startTime
    ensures SpansAfter([], start)
  {
    assert (spans + [span])[|spans|] == span;
    forall i | 0 <= i < |spans| ensures (spans + [span])[i] == spans[i] {
    }
  }

  lemma {:induction false} StepBounded(r: Run, e: Event, now: int)
    requires Bounded(r, now) && now < e.time
    ensures Bounded(Step(r, e), e.time)
  {
  }

  lemma {:induction false} NoneOpen(stacks: map<int, seq<OpenSpan>>)
    requires forall c :: c in stacks ==> stacks[c] != []
    ensures TotalOpen(stacks) == 0 <==> forall c :: c !in stacks
  {
    if c :| c in stacks {
      TotalWithout(stacks, c);
    }
  }

  /** No span is open, and none is stored. */
  ghost predicate NoSpans(r: Run) {
    (forall c :: c !in r.stacks) && r.inserted == []
  }

  /** A collection without a profile moves `startTime` and neither the spans nor the cutoff.  It leaves the
      profiler in order exactly when there is no span, open or completed, and the new start is not after the old
      cutoff. */
  lemma {:induction false} CollectNothingSoundIff(r: Run, now: int, time: int)
    requires r.running && Bounded(r, now) && now < time
    ensures Sound(Step(r, CollectNothing(time))) <==> NoSpans(r) && time <= r.cutoff
  {
    assert r.inserted != [] ==> r.inserted[0] in Step(r, CollectNothing(time)).inserted;
    NoneOpen(r.stacks);
  }

  lemma {:induction false} ExitSound(r: Run, e: Event, now: int)
    requires e.Exit? && Bounded(r, now) && r.running && StackOf(r.stacks, e.ctx) != []
    ensures Sound(Step(r, e)) <==> Sound(r)
  {
    hide OpenAfter, TotalOpen;
    var stack := r.stacks[e.ctx];
    var rest, top := stack[..|stack| - 1], stack[|stack| - 1];
    assert stack == rest + [top];
    TotalReplaced(r.stacks, e.ctx, rest);
    StackChangesAfter(r.stacks, e.ctx, rest, top, r.startTime);
    assert Close(top, e.time) in Step(r, e).inserted;
  }

  lemma {:induction false} EnterSound(r: Run, e: Event, now: int)
    requires e.Enter? && Bounded(r, now) && now < e.time && r.running
    ensures Sound(Step(r, e)) <==> Sound(r)
  {
    hide OpenAfter, TotalOpen;
    var stack, span := StackOf(r.stacks, e.ctx), OpenSpan(e.traceId, e.spanId, e.time);
    var d := Step(r, e);
    TotalReplaced(r.stacks, e.ctx, stack + [span]);
    StackChangesAfter(d.stacks, e.ctx, stack, span, r.startTime);
    NoEmptyStack(r.stacks, e.ctx, r.startTime);
    assert d.stacks[e.ctx := stack] == r.stacks[e.ctx := stack];
  }

  lemma {:induction false} NoEmptyStack(stacks: map<int, seq<OpenSpan>>, c: int, start: int)
    ensures OpenAfter(stacks[c := StackOf(stacks, c)], start) <==> OpenAfter(stacks, start)
  {
    var same := stacks[c := StackOf(stacks, c)];
    forall d | d in stacks ensures d in same && same[d] == stacks[d] {
    }
  }

  /** Whether a collection without a profile has put the profiler out of order since the last reset. */
  ghost predicate Harmed(events: seq<Event>) {
    if events == [] then false
    else
      var front, e := events[..|events| - 1], events[|events| - 1];
      var r := Execute(INITIAL, front);
      match e
      case Enter(_, _, _, _) => Harmed(front)
      case Exit(_, _) => Harmed(front)
      case Start(_, _) => r.running && Harmed(front)
      case Collect(_, _) => false
      case Stop(_) => false
      case CollectNothing(t) => r.running && !(NoSpans(r) && t <= r.cutoff)
  }

  /** In every run, nested or not: while running, `activationDepth` is the total of the stack counts, every stored
      activation starts after `startTime`, and the cutoff is not before it, exactly unless the run was harmed. */
  lemma {:induction false} EveryRunIsSoundIff(events: seq<Event>)
    requires Timed(events)
    ensures Sound(Execute(INITIAL, events)) <==> !Harmed(events)
    ensures events != [] ==> Bounded(Execute(INITIAL, events), events[|events| - 1].time)
  {
    hide Sound, Bounded, Step;
    if events == [] {
      InitialSound();
    } else {
      var front, e := events[..|events| - 1], events[|events| - 1];
      EveryRunIsSoundIff(front);
      var now := if front == [] then e.time - 1 else front[|front| - 1].time;
      InitialBounded(now);
      StepBounded(Execute(INITIAL, front), e, now);
      StepSoundIff(Execute(INITIAL, front), e, now);
    }
  }

  /** A run that is harmed: a span is open when a collection gets no profile. */
  lemma {:induction false} HarmedExample(ctx: int, traceId: string, spanId: string)
    ensures var events := [Start(1, 1), Enter(ctx, traceId, spanId, 2), CollectNothing(3)];
            Timed(events) && Harmed(events) && !Sound(Execute(INITIAL, events))
  {
    var start, enter := Start(1, 1), Enter(ctx, traceId, spanId, 2);
    var events := [start, enter, CollectNothing(3)];
    OneMore([], start);
    OneMore([start], enter);
    assert [] + [start] == [start] && [start] + [enter] == events[..2];
    var r := Execute(INITIAL, events[..2]);
    assert r.running && ctx in r.stacks;
    EveryRunIsSoundIff(events);
  }

  lemma {:induction false} OneMore(events: seq<Event>, e: Event)
    ensures Execute(INITIAL, events + [e]) == Step(Execute(INITIAL, events), e)
  {
    assert (events + [e])[..|events|] == events;
  }

  lemma {:induction false} InitialSound()
    ensures Sound(INITIAL)
  {
  }

  lemma {:induction false} InitialBounded(now: int)
    ensures Bounded(INITIAL, now)
  {
  }

  /** Collecting with a profile, and stopping, repair everything; a call without a profile harms as said above; and
      all other calls leave the profiler in order, or out of order, as it was. */
  lemma {:induction false} StepSoundIff(r: Run, e: Event, now: int)
    requires Bounded(r, now) && now < e.time && Punctual(e)
    ensures Sound(Step(r, e)) <==>
            match e
            case Start(_, _) => !r.running || Sound(r)
            case Collect(_, _) => true
            case Stop(_) => true
            case CollectNothing(t) => !r.running || (NoSpans(r) && t <= r.cutoff)
            case _ => Sound(r)
  {
    match e
    case Enter(_, _, _, _) => if r.running { EnterSound(r, e, now); }
    case Exit(_, _) => if r.running && StackOf(r.stacks, e.ctx) != [] { ExitSound(r, e, now); }
    case CollectNothing(t) => if r.running { CollectNothingSoundIff(r, now, t); }
    case _ =>
      assert TotalOpen(map[]) == 0;
  }

  // ----- well-nested runs

  /** An open context of the program: `recorded` when the profiler holds it, that is, when it was entered
      while running and since the last reset. */
  datatype Nest = Nest(ctx: int, recorded: Option<OpenSpan>)

  /** The contexts open in the program after one more event; None when an exit does not match the innermost one. */
  function NestStep(r: Run, nest: seq<Nest>, e: Event): Option<seq<Nest>> {
    match e
    case Enter(c, trace, span, t) =>
      Some(nest + [Nest(c, if r.running then Some(OpenSpan(trace, span, t)) else None)])
    case Exit(c, t) =>
      if nest != [] && nest[|nest| - 1].ctx == c then Some(nest[..|nest| - 1]) else None
    case Start(t, _) => Some(nest)
    case Collect(t, _) => Some(if r.running then Forget(nest) else nest)
    case CollectNothing(t) => Some(nest)
    case Stop(t) => Some(if r.running then Forget(nest) else nest)
  }

  function Forget(nest: seq<Nest>): (f: seq<Nest>)
    ensures |f| == |nest|
  {
    seq(|nest|, i requires 0 <= i < |nest| => Nest(nest[i].ctx, None))
  }

  function NestAfter(events: seq<Event>): Option<seq<Nest>> {
    if events == [] then Some([])
    else
      var front := events[..|events| - 1];
      var nest := NestAfter(front);
      if nest.None? then None else NestStep(Execute(INITIAL, front), nest.value, events[|events| - 1])
  }

  /** Every exit leaves the innermost open context, as a synchronous context manager guarantees. */
  predicate WellNested(events: seq<Event>) {
    NestAfter(events).Some?
  }

  /** The recorded open spans of one context, outermost first. */
  function RecordedOf(nest: seq<Nest>, c: int): seq<OpenSpan> {
    if nest == [] then []
    else
      var n := nest[|nest| - 1];
      RecordedOf(nest[..|nest| - 1], c) + (if n.ctx == c && n.recorded.Some? then [n.recorded.value] else [])
  }

  ghost predicate Before(a: SpanActivation, b: SpanActivation) {
    a.endTime < b.startTime
  }

  /** `a` lies strictly inside `b`. */
  ghost predicate Inside(a: SpanActivation, b: SpanActivation) {
    b.startTime < a.startTime && a.endTime < b.endTime
  }

  ghost predicate Laminar(s: seq<SpanActivation>) {
    forall i, j :: 0 <= i < j < |s| ==> Before(s[i], s[j]) || Inside(s[i], s[j])
  }

  /** Recorded contexts are the innermost ones, each started after the ones around it. */
  ghost predicate InnermostRecorded(nest: seq<Nest>) {
    forall i, j :: 0 <= i < j < |nest| && nest[i].recorded.Some? ==>
      nest[j].recorded.Some? && nest[i].recorded.value.startTime < nest[j].recorded.value.startTime
  }

  /** A completed activation ended before an open one started, or lies inside it. */
  ghost predicate Clear(inserted: seq<SpanActivation>, nest: seq<Nest>) {
    forall a, i :: a in inserted && 0 <= i < |nest| && nest[i].recorded.Some? ==>
      a.endTime < nest[i].recorded.value.startTime || nest[i].recorded.value.startTime < a.startTime
  }

  ghost predicate NestInv(r: Run, nest: seq<Nest>) {
    && (forall c :: StackOf(r.stacks, c) == RecordedOf(nest, c))
    && InnermostRecorded(nest) && Laminar(r.inserted) && Clear(r.inserted, nest)
  }

  lemma {:induction false} RecordedForgotten(nest: seq<Nest>, c: int)
    requires forall i :: 0 <= i < |nest| ==> nest[i].recorded.None?
    ensures RecordedOf(nest, c) == []
  {
    if nest != [] {
      RecordedForgotten(nest[..|nest| - 1], c);
    }
  }

  lemma {:induction false} RecordedPush(nest: seq<Nest>, n: Nest, c: int)
    ensures RecordedOf(nest + [n], c) ==
        RecordedOf(nest, c) + (if n.ctx == c && n.recorded.Some? then [n.recorded.value] else [])
  {
    assert (nest + [n])[..|nest|] == nest;
  }

  lemma {:induction false} RecordedIn(nest: seq<Nest>, c: int)
    ensures forall o :: o in RecordedOf(nest, c) ==> exists i :: 0 <= i < |nest| && nest[i].recorded == Some(o)
  {
    if nest != [] {
      var front := nest[..|nest| - 1];
      RecordedIn(front, c);
      forall o | o in RecordedOf(nest, c) ensures exists i :: 0 <= i < |nest| && nest[i].recorded == Some(o) {
        if o in RecordedOf(front, c) {
          var i :| 0 <= i < |front| && front[i].recorded == Some(o);
          assert nest[i].recorded == Some(o);
        } else {
          assert nest[|nest| - 1].recorded == Some(o);
        }
      }
    }
  }

  lemma {:induction false} RecordedHas(nest: seq<Nest>, i: nat)
    requires i < |nest| && nest[i].recorded.Some?
    ensures nest[i].recorded.value in RecordedOf(nest, nest[i].ctx)
  {
    if i < |nest| - 1 {
      RecordedHas(nest[..|nest| - 1], i);
    }
  }

  lemma {:induction false} RecordedTimes(r: Run, nest: seq<Nest>, now: int)
    requires Bounded(r, now) && NestInv(r, nest)
    ensures forall i :: 0 <= i < |nest| && nest[i].recorded.Some? ==>
        r.running && nest[i].recorded.value.startTime <= now
  {
    forall i | 0 <= i < |nest| && nest[i].recorded.Some?
      ensures r.running && nest[i].recorded.value.startTime <= now
    {
      RecordedHas(nest, i);
      assert nest[i].recorded.value in StackOf(r.stacks, nest[i].ctx);
    }
  }

  lemma {:induction false} EnterKeepsNest(r: Run, nest: seq<Nest>, e: Event, now: int)
    requires e.Enter? && Bounded(r, now) && now < e.time && NestInv(r, nest)
    ensures NestInv(Step(r, e), NestStep(r, nest, e).value)
  {
    var nest' := NestStep(r, nest, e).value;
    forall c ensures StackOf(Step(r, e).stacks, c) == RecordedOf(nest', c) {
      RecordedPush(nest, nest'[|nest|], c);
    }
    RecordedTimes(r, nest, now);
  }

  /** Leaving a context the profiler does not hold leaves its state as it was. */
  lemma {:induction false} ExitUnrecorded(r: Run, nest: seq<Nest>, e: Event)
    requires e.Exit? && NestInv(r, nest) && NestStep(r, nest, e).Some? && nest[|nest| - 1].recorded.None?
    ensures Step(r, e) == r && NestInv(r, nest[..|nest| - 1])
  {
    hide RecordedOf, Laminar;
    var front := nest[..|nest| - 1];
    RecordedForgotten(nest, e.ctx);
    assert StackOf(r.stacks, e.ctx) == [];
    forall c ensures RecordedOf(front, c) == RecordedOf(nest, c) {
      assert nest == front + [nest[|nest| - 1]];
      RecordedPush(front, nest[|nest| - 1], c);
    }
  }

  lemma {:induction false} ExitStacks(r: Run, nest: seq<Nest>, e: Event, o: OpenSpan)
    requires e.Exit? && r.running && nest != [] && nest[|nest| - 1] == Nest(e.ctx, Some(o))
    requires forall c :: StackOf(r.stacks, c) == RecordedOf(nest, c)
    ensures forall c :: StackOf(Step(r, e).stacks, c) == RecordedOf(nest[..|nest| - 1], c)
    ensures Step(r, e).inserted == r.inserted + [Close(o, e.time)]
  {
    var front := nest[..|nest| - 1];
    assert StackOf(r.stacks, e.ctx) == RecordedOf(front, e.ctx) + [o];
    forall c ensures StackOf(Step(r, e).stacks, c) == RecordedOf(front, c) {
      assert StackOf(r.stacks, c) == RecordedOf(nest, c);
    }
  }

  /** The activation of the innermost context, once completed, is nested with the others and clear of the contexts
      around it. */
  lemma {:induction false} CloseKeeps(inserted: seq<SpanActivation>, nest: seq<Nest>, o: OpenSpan, time: int)
    requires InnermostRecorded(nest) && Laminar(inserted) && Clear(inserted, nest)
    requires nest != [] && nest[|nest| - 1].recorded == Some(o) && forall a :: a in inserted ==> a.endTime < time
    ensures Laminar(inserted + [Close(o, time)]) && Clear(inserted + [Close(o, time)], nest[..|nest| - 1])
    ensures InnermostRecorded(nest[..|nest| - 1])
  {
  }

  lemma {:induction false} ExitKeepsNest(r: Run, nest: seq<Nest>, e: Event, now: int)
    requires e.Exit? && Bounded(r, now) && now < e.time && NestInv(r, nest) && NestStep(r, nest, e).Some?
    ensures NestInv(Step(r, e), NestStep(r, nest, e).value)
  {
    hide Step, StackOf, RecordedOf, Laminar, Clear, InnermostRecorded;
    var top := nest[|nest| - 1];
    RecordedTimes(r, nest, now);
    if top.recorded.None? {
      ExitUnrecorded(r, nest, e);
    } else {
      ExitStacks(r, nest, e, top.recorded.value);
      CloseKeeps(r.inserted, nest, top.recorded.value, e.time);
    }
  }

  lemma {:induction false} ResetKeepsNest(r: Run, nest: seq<Nest>, e: Event, now: int)
    requires (e.Start? || e.Collect? || e.CollectNothing? || e.Stop?) && Bounded(r, now) && NestInv(r, nest)
    ensures NestInv(Step(r, e), NestStep(r, nest, e).value)
  {
    forall c ensures RecordedOf(Forget(nest), c) == [] {
      RecordedForgotten(Forget(nest), c);
    }
  }

  lemma {:induction false} EveryNestedRun(events: seq<Event>)
    requires Timed(events) && WellNested(events)
    ensures NestInv(Execute(INITIAL, events), NestAfter(events).value)
  {
    if events != [] {
      var front, e := events[..|events| - 1], events[|events| - 1];
      EveryNestedRun(front);
      EveryRunIsSoundIff(front);
      var r, nest := Execute(INITIAL, front), NestAfter(front).value;
      var now := if front == [] then e.time - 1 else front[|front| - 1].time;
      assert Bounded(r, now);
      match e
      case Enter(_, _, _, _) => EnterKeepsNest(r, nest, e, now);
      case Exit(_, _) => ExitKeepsNest(r, nest, e, now);
      case Start(_, _) => ResetKeepsNest(r, nest, e, now);
      case Collect(_, _) => ResetKeepsNest(r, nest, e, now);
      case CollectNothing(_) => ResetKeepsNest(r, nest, e, now);
      case Stop(_) => ResetKeepsNest(r, nest, e, now);
    }
  }

  /** In a well-nested run a lookup yields the innermost of the completed activations that cover the timestamp:
      it lies strictly inside every other one. */
  lemma {:induction false} LookupIsInnermost(events: seq<Event>, ts: int)
    requires Timed(events) && WellNested(events)
    ensures var s := Execute(INITIAL, events).inserted;
            match LinearScan(s, ts)
            case None => forall a :: a in s ==> !Covers(a, ts)
            case Some(m) => m in s && Covers(m, ts) && forall a :: a in s && Covers(a, ts) && a != m ==> Inside(m, a)
  {
    EveryNestedRun(events);
    LinearScanFindsClosest(Execute(INITIAL, events).inserted, ts);
  }
}
