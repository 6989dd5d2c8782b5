/** Where the spans that the profiler stores come from, told by the calls of the run alone. */
module SpanOrigins {
  import opened Wrappers
  import opened ActivationIndex
  import opened ActivationStack
  import opened ProfilerRun

  // ----- every run

  /** A profiler runs after a start and until the next stop. */
  predicate RunningAfter(events: seq<Event>) {
    if events == [] then false
    else
      var e := events[|events| - 1];
      if e.Start? then true else if e.Stop? then false else RunningAfter(events[..|events| - 1])
  }

  lemma {:induction false} RunningIs(events: seq<Event>)
    ensures Execute(INITIAL, events).running == RunningAfter(events)
  {
    if events != [] {
      RunningIs(events[..|events| - 1]);
    }
  }

  /** Call `i` entered a context while the profiler ran, and there was no reset since. */
  ghost predicate Recorded(events: seq<Event>, i: nat) {
    && i < |events| && events[i].Enter? && RunningAfter(events[..i])
    && forall k :: i < k < |events| ==> !events[k].Collect? && !events[k].Stop?
  }

  /** `o` was opened in context `c` by some recorded call. */
  ghost predicate Opened(events: seq<Event>, c: int, o: OpenSpan) {
    exists i: nat :: Recorded(events, i) && events[i] == Enter(c, o.traceId, o.spanId, o.startTime)
  }

  /** `a` was opened by a recorded call and closed by a later one of the same context. */
  ghost predicate OpenedAndClosed(events: seq<Event>, a: SpanActivation) {
    exists c: int, i: nat, j: nat ::
      && i < j < |events| && Recorded(events, i)
      && events[i] == Enter(c, a.traceId, a.spanId, a.startTime) && events[j] == Exit(c, a.endTime)
  }

  ghost predicate OriginsKnown(events: seq<Event>, r: Run) {
    && (forall c, k :: c in r.stacks && 0 <= k < |r.stacks[c]| ==> Opened(events, c, r.stacks[c][k]))
    && (forall a :: a in r.inserted ==> OpenedAndClosed(events, a))
  }

  predicate Resets(e: Event) {
    e.Collect? || e.Stop?
  }

  lemma {:induction false} RecordedOneMore(events: seq<Event>, e: Event, i: nat)
    requires i < |events|
    ensures Recorded(events + [e], i) <==> Recorded(events, i) && !Resets(e)
  {
    assert (events + [e])[..i] == events[..i] && (events + [e])[i] == events[i];
    if Recorded(events + [e], i) {
      forall k | i < k < |events| ensures !Resets(events[k]) {
        assert (events + [e])[k] == events[k];
      }
      assert (events + [e])[|events|] == e;
    }
  }

  lemma {:induction false} StillOpened(events: seq<Event>, e: Event, c: int, o: OpenSpan)
    requires Opened(events, c, o) && !Resets(e)
    ensures Opened(events + [e], c, o)
  {
    var i: nat :| Recorded(events, i) && events[i] == Enter(c, o.traceId, o.spanId, o.startTime);
    RecordedOneMore(events, e, i);
    assert (events + [e])[i] == events[i];
  }

  lemma {:induction false} StillClosed(events: seq<Event>, e: Event, a: SpanActivation)
    requires OpenedAndClosed(events, a) && !Resets(e)
    ensures OpenedAndClosed(events + [e], a)
  {
    var c: int, i: nat, j: nat :| i < j < |events| && Recorded(events, i)
      && events[i] == Enter(c, a.traceId, a.spanId, a.startTime) && events[j] == Exit(c, a.endTime);
    RecordedOneMore(events, e, i);
    assert (events + [e])[i] == events[i] && (events + [e])[j] == events[j];
  }

  lemma {:induction false} JustOpened(events: seq<Event>, e: Event)
    requires e.Enter? && RunningAfter(events)
    ensures Opened(events + [e], e.ctx, OpenSpan(e.traceId, e.spanId, e.time))
  {
    var n := |events|;
    assert (events + [e])[..n] == events && (events + [e])[n] == e;
    assert Recorded(events + [e], n);
  }

  lemma {:induction false} JustClosed(events: seq<Event>, e: Event, o: OpenSpan, a: SpanActivation)
    requires e.Exit? && Opened(events, e.ctx, o)
    requires a.traceId == o.traceId && a.spanId == o.spanId && a.startTime == o.startTime && a.endTime == e.time
    ensures OpenedAndClosed(events + [e], a)
  {
    var i: nat :| Recorded(events, i) && events[i] == Enter(e.ctx, o.traceId, o.spanId, o.startTime);
    RecordedOneMore(events, e, i);
    assert (events + [e])[i] == events[i] && (events + [e])[|events|] == e;
  }

  lemma {:induction false} OriginsStep(events: seq<Event>, e: Event, r: Run, now: int)
    requires OriginsKnown(events, r) && Bounded(r, now) && r.running == RunningAfter(events)
    ensures OriginsKnown(events + [e], Step(r, e))
  {
    hide Opened, OpenedAndClosed, RunningAfter;
    var d := Step(r, e);
    if !Resets(e) {
      forall c, k | c in r.stacks && 0 <= k < |r.stacks[c]| ensures Opened(events + [e], c, r.stacks[c][k]) {
        StillOpened(events, e, c, r.stacks[c][k]);
      }
      forall a | a in r.inserted ensures OpenedAndClosed(events + [e], a) {
        StillClosed(events, e, a);
      }
    }
    if e.Enter? && r.running {
      JustOpened(events, e);
    }
    if e.Exit? && r.running && StackOf(r.stacks, e.ctx) != [] {
      var stack := r.stacks[e.ctx];
      JustClosed(events, e, stack[|stack| - 1], d.inserted[|r.inserted|]);
    }
  }

  /** In every run, nested or not: every open span was opened in its context with its own ids and time, and every
      stored activation was opened with its own ids and start and closed at its end, in one context, since the last
      reset. */
  lemma {:induction false} EverySpanHasOrigin(events: seq<Event>)
    requires Timed(events)
    ensures var r := Execute(INITIAL, events);
            && (forall c, k :: c in r.stacks && 0 <= k < |r.stacks[c]| ==> Opened(events, c, r.stacks[c][k]))
            && (forall a :: a in r.inserted ==> OpenedAndClosed(events, a))
  {
    hide Opened, OpenedAndClosed, Step, Bounded;
    if events != [] {
      var front, e := events[..|events| - 1], events[|events| - 1];
      EverySpanHasOrigin(front);
      RunningIs(front);
      EveryRunIsSoundIff(front);
      var now := if front == [] then e.time - 1 else front[|front| - 1].time;
      InitialBounded(now);
      OriginsStep(front, e, Execute(INITIAL, front), now);
      assert events == front + [e];
    }
  }

  // ----- well-nested runs

  /** The calls that opened the contexts still open, outermost first; None when an exit does not match. */
  function OpenCalls(events: seq<Event>): Option<seq<nat>> {
    if events == [] then Some([])
    else
      var n := |events| - 1;
      var open := OpenCalls(events[..n]);
      if open.None? then None
      else
        match events[n]
        case Enter(_, _, _, _) => Some(open.value + [n])
        case Exit(c, _) =>
          var top := |open.value| - 1;
          if top >= 0 && open.value[top] < n && events[open.value[top]].Enter? && events[open.value[top]].ctx == c then
            Some(open.value[..top])
          else None
        case _ => open
  }

  /** Call `j` leaves the context that call `i` entered. */
  ghost predicate Matching(events: seq<Event>, i: nat, j: nat) {
    && i < j < |events| && events[i].Enter? && events[j].Exit? && events[i].ctx == events[j].ctx
    && var open := OpenCalls(events[..j]);
       open.Some? && open.value != [] && open.value[|open.value| - 1] == i
  }

  /** Calls `i` and `j` open and close one span that the profiler holds. */
  ghost predicate Completed(events: seq<Event>, i: nat, j: nat) {
    Matching(events, i, j) && Recorded(events, i)
  }

  /** What is stored for such a span. */
  ghost predicate IsSpan(events: seq<Event>, i: nat, j: nat, a: SpanActivation)
    requires i < |events| && j < |events| && events[i].Enter?
  {
    && a.traceId == events[i].traceId && a.spanId == events[i].spanId
    && a.startTime == events[i].time && a.endTime == events[j].time
  }

  /** Calls `i` and `j` open and close the span that `a` describes. */
  ghost predicate Ends(events: seq<Event>, i: nat, j: nat, a: SpanActivation) {
    Completed(events, i, j) && IsSpan(events, i, j, a)
  }

  ghost predicate StoredFor(events: seq<Event>, a: SpanActivation) {
    exists i: nat, j: nat :: Ends(events, i, j, a)
  }

  /** One open context of the program, as the profiler's state has it. */
  ghost predicate NestIs(events: seq<Event>, n: Nest, i: nat) {
    && i < |events| && events[i].Enter? && n.ctx == events[i].ctx
    && n.recorded ==
         if Recorded(events, i) then Some(OpenSpan(events[i].traceId, events[i].spanId, events[i].time)) else None
  }

  ghost predicate NestsAre(events: seq<Event>, nest: seq<Nest>, open: seq<nat>) {
    |nest| == |open| && forall k :: 0 <= k < |nest| ==> NestIs(events, nest[k], open[k])
  }

  lemma {:induction false} NestStays(events: seq<Event>, e: Event, n: Nest, i: nat)
    requires NestIs(events, n, i)
    ensures NestIs(events + [e], if Resets(e) then Nest(n.ctx, None) else n, i)
  {
    RecordedOneMore(events, e, i);
    assert (events + [e])[i] == events[i];
  }

  lemma {:induction false} NestsStay(events: seq<Event>, e: Event, nest: seq<Nest>, open: seq<nat>)
    requires NestsAre(events, nest, open)
    ensures NestsAre(events + [e], if Resets(e) then Forget(nest) else nest, open)
  {
    hide NestIs;
    forall k | 0 <= k < |nest|
      ensures NestIs(events + [e], if Resets(e) then Forget(nest)[k] else nest[k], open[k])
    {
      NestStays(events, e, nest[k], open[k]);
    }
  }

  /** While the profiler is stopped it holds nothing. */
  lemma {:induction false} NothingRecorded(events: seq<Event>, i: nat)
    requires !RunningAfter(events)
    ensures !Recorded(events, i)
  {
    if Recorded(events, i) {
      StillRunning(events, i);
    }
  }

  lemma {:induction false} StillRunning(events: seq<Event>, i: nat)
    requires Recorded(events, i)
    ensures RunningAfter(events)
  {
    var n := |events| - 1;
    if i < n {
      var front := events[..n];
      assert events == front + [events[n]];
      RecordedOneMore(front, events[n], i);
      StillRunning(front, i);
    }
  }

  lemma {:induction false} NewNest(events: seq<Event>, e: Event)
    requires e.Enter?
    ensures var span := if RunningAfter(events) then Some(OpenSpan(e.traceId, e.spanId, e.time)) else None;
            NestIs(events + [e], Nest(e.ctx, span), |events|)
  {
    var all := events + [e];
    assert all[..|events|] == events && all[|events|] == e;
  }

  /** The contexts that the profiler's runs keep track of are those that the calls leave open. */
  lemma {:induction false} NestsStep(events: seq<Event>, e: Event, r: Run, nest: seq<Nest>, open: seq<nat>)
    requires NestsAre(events, nest, open) && r.running == RunningAfter(events) && OpenCalls(events) == Some(open)
    ensures NestStep(r, nest, e).Some? <==> OpenCalls(events + [e]).Some?
    ensures NestStep(r, nest, e).Some? ==>
              NestsAre(events + [e], NestStep(r, nest, e).value, OpenCalls(events + [e]).value)
  {
    hide NestIs, RunningAfter;
    var all, n := events + [e], |events|;
    assert all[..n] == events && all[n] == e;
    NestsStay(events, e, nest, open);
    match e
    case Enter(_, _, _, _) => NewNest(events, e);
    case Exit(c, _) =>
      if nest != [] {
        TopNest(events, nest[|nest| - 1], open[|open| - 1]);
        assert all[open[|open| - 1]] == events[open[|open| - 1]];
      }
    case _ =>
      if Resets(e) && !r.running {
        StoppedNests(events, nest, open);
      }
  }

  lemma {:induction false} TopNest(events: seq<Event>, n: Nest, i: nat)
    requires NestIs(events, n, i)
    ensures i < |events| && events[i].Enter? && n.ctx == events[i].ctx
    ensures n.recorded.Some? <==> Recorded(events, i)
    ensures n.recorded.Some? ==> n.recorded.value == OpenSpan(events[i].traceId, events[i].spanId, events[i].time)
  {
  }

  lemma {:induction false} StoppedNests(events: seq<Event>, nest: seq<Nest>, open: seq<nat>)
    requires NestsAre(events, nest, open) && !RunningAfter(events)
    ensures Forget(nest) == nest
  {
    forall k | 0 <= k < |nest| ensures Forget(nest)[k] == nest[k] {
      NothingRecorded(events, open[k]);
      TopNest(events, nest[k], open[k]);
    }
  }

  lemma {:induction false} NestsAlways(events: seq<Event>)
    ensures NestAfter(events).Some? <==> OpenCalls(events).Some?
    ensures NestAfter(events).Some? ==> NestsAre(events, NestAfter(events).value, OpenCalls(events).value)
  {
    if events != [] {
      var front, e := events[..|events| - 1], events[|events| - 1];
      NestsAlways(front);
      RunningIs(front);
      assert events == front + [e];
      if NestAfter(front).Some? {
        NestsStep(front, e, Execute(INITIAL, front), NestAfter(front).value, OpenCalls(front).value);
      }
    }
  }

  lemma {:induction false} MatchingOneMore(events: seq<Event>, e: Event, i: nat, j: nat)
    requires j < |events|
    ensures Matching(events + [e], i, j) <==> Matching(events, i, j)
  {
    assert (events + [e])[..j] == events[..j];
  }

  lemma {:induction false} CompletedOneMore(events: seq<Event>, e: Event, i: nat, j: nat)
    ensures j < |events| ==> (Completed(events + [e], i, j) <==> Completed(events, i, j) && !Resets(e))
    ensures !e.Exit? && j >= |events| ==> !Completed(events + [e], i, j)
  {
    if j < |events| {
      MatchingOneMore(events, e, i, j);
      if i < |events| {
        RecordedOneMore(events, e, i);
      }
    }
  }

  lemma {:induction false} StoredOneMore(events: seq<Event>, e: Event, a: SpanActivation)
    ensures StoredFor(events, a) && !Resets(e) ==> StoredFor(events + [e], a)
    ensures StoredFor(events + [e], a) && !e.Exit? ==> StoredFor(events, a) && !Resets(e)
    ensures e.Exit? ==>
              (StoredFor(events + [e], a) <==>
               StoredFor(events, a) || exists i: nat :: Ends(events + [e], i, |events|, a))
  {
    hide Completed;
    if StoredFor(events, a) {
      var i: nat, j: nat :| Ends(events, i, j, a);
      EndsOneMore(events, e, i, j, a);
    }
    if StoredFor(events + [e], a) {
      var i: nat, j: nat :| Ends(events + [e], i, j, a);
      EndsOneMore(events, e, i, j, a);
    }
  }

  lemma {:induction false} EndsOneMore(events: seq<Event>, e: Event, i: nat, j: nat, a: SpanActivation)
    requires Ends(events, i, j, a) || Ends(events + [e], i, j, a)
    ensures j < |events| ==> (Ends(events + [e], i, j, a) <==> Ends(events, i, j, a) && !Resets(e))
    ensures Ends(events, i, j, a) ==> j < |events|
    ensures j >= |events| ==> e.Exit? && j == |events|
  {
    CompletedOneMore(events, e, i, j);
    if j < |events| {
      assert (events + [e])[i] == events[i] && (events + [e])[j] == events[j];
    }
  }

  /** In a well-nested run the profiler stores, for every pair of matching calls it recorded, their span with its own
      ids and times, and nothing else. */
  lemma {:induction false} StoredIff(events: seq<Event>, a: SpanActivation)
    requires Timed(events) && WellNested(events)
    ensures a in Execute(INITIAL, events).inserted <==> StoredFor(events, a)
  {
    hide Step, StoredFor, NestInv, Bounded, Timed, Completed, IsSpan;
    if events == [] {
      NothingStored(a);
    } else {
      var front, e := events[..|events| - 1], events[|events| - 1];
      assert events == front + [e];
      TimedPrefix(front, e);
      StoredIff(front, a);
      NestsAlways(front);
      RunningIs(front);
      EveryNestedRun(front);
      EmptyWhileStopped(front);
      StoredOneMore(front, e, a);
      var r, nest, open := Execute(INITIAL, front), NestAfter(front).value, OpenCalls(front).value;
      if e.Exit? {
        ExitStores(front, e, r, nest, open, a);
      } else {
        OtherStores(front, e, r, a);
      }
    }
  }

  lemma {:induction false} TimedPrefix(events: seq<Event>, e: Event)
    requires Timed(events + [e])
    ensures Timed(events)
  {
    forall i | 0 <= i < |events| ensures (events + [e])[i] == events[i] {
    }
  }

  lemma {:induction false} EmptyWhileStopped(events: seq<Event>)
    requires Timed(events)
    ensures var r := Execute(INITIAL, events); !r.running ==> (forall c :: c !in r.stacks) && r.inserted == []
  {
    EveryRunIsSoundIff(events);
  }

  lemma {:induction false} NothingStored(a: SpanActivation)
    ensures !StoredFor([], a)
  {
  }

  /** A call that is no exit stores nothing, and a reset leaves nothing stored. */
  lemma {:induction false} OtherStores(events: seq<Event>, e: Event, r: Run, a: SpanActivation)
    requires !e.Exit? && (!r.running ==> r.inserted == [])
    ensures a in Step(r, e).inserted <==> a in r.inserted && !Resets(e)
  {
  }

  lemma {:induction false} ExitStores(events: seq<Event>, e: Event, r: Run, nest: seq<Nest>, open: seq<nat>,
      a: SpanActivation)
    requires e.Exit? && NestsAre(events, nest, open) && OpenCalls(events) == Some(open)
    requires NestStep(r, nest, e).Some? && NestInv(r, nest) && (r.running <==> RunningAfter(events))
    ensures a in Step(r, e).inserted <==>
            a in r.inserted || exists i: nat :: Ends(events + [e], i, |events|, a)
  {
    hide NestInv, NestIs, RunningAfter, Step, Completed, IsSpan;
    var top, i := nest[|nest| - 1], open[|open| - 1];
    TopNest(events, top, i);
    OnlyTopEnds(events, e, open, a);
    NothingRecordedWhileStopped(events, i);
    if top.recorded.None? {
      ExitUnrecorded(r, nest, e);
    } else {
      TopIsStored(r, nest, e, top.recorded.value, a);
    }
  }

  lemma {:induction false} OnlyTopEnds(events: seq<Event>, e: Event, open: seq<nat>, a: SpanActivation)
    requires e.Exit? && OpenCalls(events) == Some(open) && open != []
    requires var i := open[|open| - 1]; i < |events| && events[i].Enter? && events[i].ctx == e.ctx
    ensures var i := open[|open| - 1];
            (exists k: nat :: Ends(events + [e], k, |events|, a)) <==>
              && Recorded(events, i) && a.traceId == events[i].traceId && a.spanId == events[i].spanId
              && a.startTime == events[i].time && a.endTime == e.time
  {
    hide RunningAfter, OpenCalls, Recorded;
    var i, all, n := open[|open| - 1], events + [e], |events|;
    assert all[..n] == events && all[n] == e && all[i] == events[i];
    RecordedOneMore(events, e, i);
    assert Matching(all, i, n);
    assert Ends(all, i, n, a) <==>
           Recorded(events, i) && a.traceId == events[i].traceId && a.spanId == events[i].spanId
             && a.startTime == events[i].time && a.endTime == e.time;
    assert forall k: nat :: Ends(all, k, n, a) ==> k == i;
  }

  lemma {:induction false} TopIsStored(r: Run, nest: seq<Nest>, e: Event, o: OpenSpan, a: SpanActivation)
    requires e.Exit? && r.running && nest != [] && nest[|nest| - 1] == Nest(e.ctx, Some(o)) && NestInv(r, nest)
    ensures a in Step(r, e).inserted <==>
            a in r.inserted || a == SpanActivation(o.traceId, o.spanId, o.startTime, e.time)
  {
    hide RecordedOf, Laminar, Clear, InnermostRecorded;
    ExitStacks(r, nest, e, o);
  }

  lemma {:induction false} NothingRecordedWhileStopped(events: seq<Event>, i: nat)
    ensures Recorded(events, i) ==> RunningAfter(events)
  {
    if Recorded(events, i) {
      StillRunning(events, i);
    }
  }

  ghost predicate SpanCovers(events: seq<Event>, i: nat, j: nat, ts: int)
    requires i < |events| && j < |events|
  {
    events[i].time <= ts <= events[j].time
  }

  ghost predicate CompletedOver(events: seq<Event>, i: nat, j: nat, ts: int) {
    Completed(events, i, j) && SpanCovers(events, i, j, ts)
  }

  function SpanOf(events: seq<Event>, i: nat, j: nat): SpanActivation
    requires i < |events| && j < |events| && events[i].Enter?
  {
    SpanActivation(events[i].traceId, events[i].spanId, events[i].time, events[j].time)
  }

  lemma {:induction false} SpanIsStored(events: seq<Event>, i: nat, j: nat, ts: int)
    requires Timed(events) && WellNested(events) && CompletedOver(events, i, j, ts)
    ensures i < |events| && j < |events| && events[i].Enter?
    ensures SpanOf(events, i, j) in Execute(INITIAL, events).inserted && Covers(SpanOf(events, i, j), ts)
  {
    var a := SpanOf(events, i, j);
    assert Ends(events, i, j, a);
    StoredIff(events, a);
  }

  /** Later spans are told apart by their indices as by their times. */
  lemma {:induction false} TimesOrderCalls(events: seq<Event>, i: nat, k: nat)
    requires Timed(events) && i < |events| && k < |events|
    ensures events[i].time <= events[k].time <==> i <= k
  {
  }

  /** `m` is the span of the matching calls `i` and `j`, and these are the innermost recorded ones around `ts`. */
  ghost predicate InnermostCalls(events: seq<Event>, i: nat, j: nat, ts: int, m: SpanActivation) {
    && Ends(events, i, j, m) && CompletedOver(events, i, j, ts)
    && forall k: nat, l: nat :: CompletedOver(events, k, l, ts) ==> k <= i && j <= l
  }

  /** In a well-nested run a lookup yields the ids of the innermost recorded pair of matching calls around the
      timestamp, and nothing only when there is no such pair. */
  lemma {:induction false} LookupReturnsInnermostCalls(events: seq<Event>, ts: int)
    requires Timed(events) && WellNested(events)
    ensures match LinearScan(Execute(INITIAL, events).inserted, ts)
            case None => forall i: nat, j: nat :: !CompletedOver(events, i, j, ts)
            case Some(m) => exists i: nat, j: nat :: InnermostCalls(events, i, j, ts, m)
  {
    hide Completed, Timed, LinearScan;
    LookupIsInnermost(events, ts);
    match LinearScan(Execute(INITIAL, events).inserted, ts)
    case None =>
      forall i: nat, j: nat ensures !CompletedOver(events, i, j, ts) {
        if CompletedOver(events, i, j, ts) {
          SpanIsStored(events, i, j, ts);
        }
      }
    case Some(m) =>
      StoredIff(events, m);
      var i: nat, j: nat :| Ends(events, i, j, m);
      CompletedCalls(events, i, j);
      assert CompletedOver(events, i, j, ts);
      forall k: nat, l: nat | CompletedOver(events, k, l, ts) ensures k <= i && j <= l {
        SpanIsStored(events, k, l, ts);
        TimesOrderCalls(events, k, i);
        TimesOrderCalls(events, j, l);
      }
      assert InnermostCalls(events, i, j, ts, m);
  }

  lemma {:induction false} CompletedCalls(events: seq<Event>, i: nat, j: nat)
    requires Completed(events, i, j)
    ensures i < j < |events| && events[i].Enter? && events[j].Exit?
  {
  }

  // ----- the period

  ghost predicate NotStoppedSince(events: seq<Event>, i: nat) {
    i < |events| && events[i].Start? && forall k :: i < k < |events| ==> !events[k].Stop?
  }

  lemma {:induction false} StoppedOneMore(events: seq<Event>, e: Event, i: nat)
    ensures NotStoppedSince(events + [e], i) <==>
            if i < |events| then NotStoppedSince(events, i) && !e.Stop? else i == |events| && e.Start?
    ensures NotStoppedSince(events, i) ==> i < |events|
  {
    var all := events + [e];
    assert i < |events| ==> all[i] == events[i];
    assert all[|events|] == e;
    if NotStoppedSince(all, i) {
      forall k | i < k < |events| ensures !events[k].Stop? {
        assert all[k] == events[k];
      }
    }
  }

  lemma {:induction false} RunningAfterIff(events: seq<Event>)
    ensures RunningAfter(events) <==> exists i: nat :: NotStoppedSince(events, i)
  {
    if events != [] {
      var front, e := events[..|events| - 1], events[|events| - 1];
      assert events == front + [e];
      RunningAfterIff(front);
      StoppedOneMore(front, e, |front|);
      if i: nat :| NotStoppedSince(front, i) {
        StoppedOneMore(front, e, i);
      }
      if i: nat :| NotStoppedSince(events, i) {
        StoppedOneMore(front, e, i);
      }
    }
  }

  /** Call `i` started a period: a start of a stopped profiler, or a collection by a running one. */
  predicate StartsPeriod(events: seq<Event>, i: nat)
    requires i < |events|
  {
    if RunningAfter(events[..i]) then events[i].Collect? || events[i].CollectNothing? else events[i].Start?
  }

  /** Call `i` read the cutoff; a collection without a profile does not. */
  predicate ReadsCutoff(events: seq<Event>, i: nat)
    requires i < |events|
  {
    if RunningAfter(events[..i]) then events[i].Collect? else events[i].Start?
  }

  ghost predicate PeriodFrom(events: seq<Event>, i: nat, startTime: int) {
    && i < |events| && StartsPeriod(events, i) && startTime == events[i].time
    && forall k :: i < k < |events| ==> !StartsPeriod(events, k)
  }

  ghost predicate CutoffFrom(events: seq<Event>, i: nat, cutoff: int) {
    && i < |events| && ReadsCutoff(events, i) && (events[i].Start? || events[i].Collect?) && cutoff == events[i].cutoff
    && forall k :: i < k < |events| ==> !ReadsCutoff(events, k)
  }

  lemma {:induction false} PeriodStays(events: seq<Event>, e: Event, i: nat, time: int)
    ensures PeriodFrom(events, i, time) && !StartsPeriod(events + [e], |events|) ==> PeriodFrom(events + [e], i, time)
    ensures CutoffFrom(events, i, time) && !ReadsCutoff(events + [e], |events|) ==> CutoffFrom(events + [e], i, time)
  {
    var all := events + [e];
    forall k | 0 <= k < |events|
      ensures all[k] == events[k]
      ensures StartsPeriod(all, k) <==> StartsPeriod(events, k)
      ensures ReadsCutoff(all, k) <==> ReadsCutoff(events, k)
    {
      assert all[..k] == events[..k];
    }
  }

  lemma {:induction false} LastOf(events: seq<Event>, e: Event)
    ensures StartsPeriod(events + [e], |events|) <==>
            if RunningAfter(events) then e.Collect? || e.CollectNothing? else e.Start?
    ensures ReadsCutoff(events + [e], |events|) <==> if RunningAfter(events) then e.Collect? else e.Start?
    ensures StartsPeriod(events + [e], |events|) ==> PeriodFrom(events + [e], |events|, e.time)
    ensures ReadsCutoff(events + [e], |events|) ==> CutoffFrom(events + [e], |events|, e.cutoff)
  {
    assert (events + [e])[..|events|] == events && (events + [e])[|events|] == e;
  }

  /** While running, `startTime` is the time of the latest call that started a period, and the cutoff is that of the
      latest call that read one. */
  lemma {:induction false} PeriodIs(events: seq<Event>)
    requires RunningAfter(events)
    ensures exists i: nat :: PeriodFrom(events, i, Execute(INITIAL, events).startTime)
    ensures exists i: nat :: CutoffFrom(events, i, Execute(INITIAL, events).cutoff)
  {
    hide PeriodFrom, CutoffFrom;
    var front, e := events[..|events| - 1], events[|events| - 1];
    var r := Execute(INITIAL, front);
    assert events == front + [e];
    assert Execute(INITIAL, events) == Step(r, e);
    RunningIs(front);
    LastOf(front, e);
    if RunningAfter(front) {
      PeriodIs(front);
      var i: nat :| PeriodFrom(front, i, r.startTime);
      var k: nat :| CutoffFrom(front, k, r.cutoff);
      PeriodStays(front, e, i, r.startTime);
      PeriodStays(front, e, k, r.cutoff);
    }
  }
}
