/** Which CPU samples become stack traces, and with which activation. */
module SampleThinning {
  import opened Wrappers
  import opened ActivationIndex

  /** The profiler fields the sample loop reads. */
  datatype Rule = Rule(startTime: int, wallStartTime: int, maxCutoffDelay: int, cutoffPoint: int, interval: int,
      onlyFiltered: bool)

  /** A kept sample: its index, its wall-clock time, and the activation it falls into. */
  datatype Trace = Trace(sample: nat, timestamp: int, activation: Option<SpanActivation>)

  predicate ShouldIncludeSample(rule: Rule, ts: int) {
    if ts >= rule.startTime + rule.maxCutoffDelay then true else ts >= rule.cutoffPoint
  }

  /** With a delay that is not negative and a cutoff after the start, no sample from before the start gets through. */
  lemma {:induction false} IncludedAfterStart(rule: Rule, ts: int)
    requires 0 <= rule.maxCutoffDelay && rule.startTime <= rule.cutoffPoint && ShouldIncludeSample(rule, ts)
    ensures rule.startTime <= ts
  {
  }

  /** No sample from before the start gets through exactly when the cutoff is not before the start. */
  lemma {:induction false} CutoffProtectsIff(rule: Rule)
    requires 0 <= rule.maxCutoffDelay
    ensures (forall ts :: ShouldIncludeSample(rule, ts) ==> rule.startTime <= ts) <==>
        rule.startTime <= rule.cutoffPoint
  {
    assert ShouldIncludeSample(rule, rule.cutoffPoint);
  }

  predicate Kept(rule: Rule, inserted: seq<SpanActivation>, ts: int, next: int) {
    && ShouldIncludeSample(rule, ts)
    && ts >= next
    && (rule.onlyFiltered ==> LinearScan(inserted, ts).Some?)
  }

  /** The traces of the samples from index `i` on, when the next one must not come before `next`. */
  function Traces(rule: Rule, inserted: seq<SpanActivation>, samples: seq<int>, i: nat, next: int): seq<Trace>
    requires i <= |samples|
    decreases |samples| - i
  {
    if i == |samples| then []
    else if Kept(rule, inserted, samples[i], next) then
      [Trace(i, rule.wallStartTime + (samples[i] - rule.startTime), LinearScan(inserted, samples[i]))]
      + Traces(rule, inserted, samples, i + 1, next + rule.interval)
    else Traces(rule, inserted, samples, i + 1, next)
  }

  /** The number of traces of samples before sample `s`. */
  function CountBefore(traces: seq<Trace>, s: nat): nat {
    if traces == [] then 0 else (if traces[0].sample < s then 1 else 0) + CountBefore(traces[1..], s)
  }

  /** A trace has its sample's place on the wall clock, and the closest activation. */
  ghost predicate IsTrace(t: Trace, rule: Rule, inserted: seq<SpanActivation>, samples: seq<int>) {
    && t.sample < |samples|
    && t.timestamp - rule.wallStartTime == samples[t.sample] - rule.startTime
    && t.activation == LinearScan(inserted, samples[t.sample])
  }

  /** A timestamp gets through: late enough after the start or not before the cutoff, not before `due`, and, when
      only filtered traces are wanted, within a span. */
  ghost predicate GetsThrough(rule: Rule, inserted: seq<SpanActivation>, ts: int, due: int) {
    && (ts - rule.startTime >= rule.maxCutoffDelay || ts >= rule.cutoffPoint)
    && ts >= due
    && (rule.onlyFiltered ==> exists a :: a in inserted && a.startTime <= ts <= a.endTime)
  }

  ghost predicate HasSample(traces: seq<Trace>, s: nat) {
    exists k :: 0 <= k < |traces| && traces[k].sample == s
  }

  /** The traces are those of the samples from index `i` on that get through, in order, when each one kept moves the
      time at which the next is due by the interval, beginning with `next`. */
  ghost predicate Thinned(traces: seq<Trace>, rule: Rule, inserted: seq<SpanActivation>, samples: seq<int>, i: nat,
      next: int)
  {
    && (forall k :: 0 <= k < |traces| ==> IsTrace(traces[k], rule, inserted, samples) && i <= traces[k].sample)
    && (forall k, l :: 0 <= k < l < |traces| ==> traces[k].sample < traces[l].sample)
    && (forall s: nat :: i <= s < |samples| ==>
          (HasSample(traces, s) <==>
           GetsThrough(rule, inserted, samples[s], next + CountBefore(traces, s) * rule.interval)))
  }

  lemma {:induction false} NoneBefore(traces: seq<Trace>, s: nat)
    requires forall k :: 0 <= k < |traces| ==> s <= traces[k].sample
    ensures CountBefore(traces, s) == 0
  {
    if traces != [] {
      NoneBefore(traces[1..], s);
    }
  }

  lemma {:induction false} KeptGetsThrough(rule: Rule, inserted: seq<SpanActivation>, ts: int, next: int)
    ensures Kept(rule, inserted, ts, next) <==> GetsThrough(rule, inserted, ts, next)
  {
    LinearScanFindsClosest(inserted, ts);
    if LinearScan(inserted, ts).None? {
      forall a | a in inserted ensures !(a.startTime <= ts <= a.endTime) {
        var j :| 0 <= j < |inserted| && inserted[j] == a;
      }
    }
  }

  lemma {:induction false} HasSampleBefore(trace: Trace, rest: seq<Trace>, s: nat)
    ensures HasSample([trace] + rest, s) <==> trace.sample == s || HasSample(rest, s)
    ensures CountBefore([trace] + rest, s) == (if trace.sample < s then 1 else 0) + CountBefore(rest, s)
  {
    var traces := [trace] + rest;
    assert traces[1..] == rest;
    if HasSample(rest, s) {
      var k :| 0 <= k < |rest| && rest[k].sample == s;
      assert traces[k + 1] == rest[k];
    }
    assert traces[0] == trace;
    if k :| 0 < k < |traces| && traces[k].sample == s {
      assert traces[k] == rest[k - 1];
    }
  }

  lemma {:induction false} DueLater(next: int, interval: int, k: nat)
    ensures next + interval + k * interval == next + (1 + k) * interval
  {
  }

  lemma {:induction false} ThinnedMore(rule: Rule, inserted: seq<SpanActivation>, samples: seq<int>, i: nat,
      next: int, trace: Trace, rest: seq<Trace>)
    requires i < |samples| && Thinned(rest, rule, inserted, samples, i + 1, next + rule.interval)
    requires IsTrace(trace, rule, inserted, samples) && trace.sample == i
    requires GetsThrough(rule, inserted, samples[i], next)
    ensures Thinned([trace] + rest, rule, inserted, samples, i, next)
  {
    hide IsTrace, GetsThrough, HasSample, CountBefore;
    var traces := [trace] + rest;
    forall s: nat | i <= s < |samples|
      ensures HasSample(traces, s) <==>
              GetsThrough(rule, inserted, samples[s], next + CountBefore(traces, s) * rule.interval)
    {
      HasSampleBefore(trace, rest, s);
      if s == i {
        NoneBefore(traces, i);
      } else {
        DueLater(next, rule.interval, CountBefore(rest, s));
      }
    }
  }

  lemma {:induction false} ThinnedLess(rule: Rule, inserted: seq<SpanActivation>, samples: seq<int>, i: nat,
      next: int, traces: seq<Trace>)
    requires i < |samples| && Thinned(traces, rule, inserted, samples, i + 1, next)
    requires !GetsThrough(rule, inserted, samples[i], next)
    ensures Thinned(traces, rule, inserted, samples, i, next)
  {
    hide IsTrace, GetsThrough, CountBefore;
    NoneBefore(traces, i);
  }

  /** The thinning is greedy: a sample is kept exactly when it gets through and is due after those kept before it. */
  lemma {:induction false} TracesAreThinned(rule: Rule, inserted: seq<SpanActivation>, samples: seq<int>, i: nat,
      next: int)
    requires i <= |samples|
    ensures Thinned(Traces(rule, inserted, samples, i, next), rule, inserted, samples, i, next)
    decreases |samples| - i
  {
    hide Kept, GetsThrough;
    if i < |samples| {
      KeptGetsThrough(rule, inserted, samples[i], next);
      if Kept(rule, inserted, samples[i], next) {
        var next' := next + rule.interval;
        TracesAreThinned(rule, inserted, samples, i + 1, next');
        ThinnedMore(rule, inserted, samples, i, next,
          Trace(i, rule.wallStartTime + (samples[i] - rule.startTime), LinearScan(inserted, samples[i])),
          Traces(rule, inserted, samples, i + 1, next'));
      } else {
        TracesAreThinned(rule, inserted, samples, i + 1, next);
        ThinnedLess(rule, inserted, samples, i, next, Traces(rule, inserted, samples, i + 1, next));
      }
    }
  }

  /** The sample loop of the collect and stop calls. */
  method BuildStacktraces(rule: Rule, index: Index, profileStart: int, samples: seq<int>) returns (traces: seq<Trace>)
    requires index.Valid() && index.profilerStart == rule.startTime
    requires 0 <= rule.maxCutoffDelay && rule.startTime <= rule.cutoffPoint
    modifies index`periods
    ensures index.Valid() && traces == Traces(rule, index.inserted, samples, 0, profileStart)
  {
    traces := [];
    var nextSampleTs := profileStart;
    for i := 0 to |samples|
      invariant index.Valid()
      invariant traces + Traces(rule, index.inserted, samples, i, nextSampleTs)
             == Traces(rule, index.inserted, samples, 0, profileStart)
    {
      var ts := samples[i];
      hide ScanFrom, Holds, Within, BinIndex;
      if ShouldIncludeSample(rule, ts) && ts >= nextSampleTs {
        IncludedAfterStart(rule, ts);
        var m := index.FindClosestActivation(ts);
        if !(rule.onlyFiltered && m.None?) {
          var delta := ts - rule.startTime;
          var trace := Trace(i, rule.wallStartTime + delta, m);
          assert traces + ([trace] + Traces(rule, index.inserted, samples, i + 1, nextSampleTs + rule.interval))
              == (traces + [trace]) + Traces(rule, index.inserted, samples, i + 1, nextSampleTs + rule.interval);
          nextSampleTs := nextSampleTs + rule.interval;
          traces := traces + [trace];
        }
      }
    }
  }
}
