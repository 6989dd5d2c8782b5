/** The activation index of the CPU profiler: completed span activations are spread over chains of 100 ms
    bins, grouped in a growing list of periods, and a lookup agrees with a scan over all of them. */
module ActivationIndex {
  import opened Arithmetic
  import opened Wrappers

  const BIN_WIDTH := 100_000_000
  const ACTIVATIONS_PER_BIN := 64
  const BINS_PER_PERIOD := 384

  datatype SpanActivation = SpanActivation(traceId: string, spanId: string, startTime: int, endTime: int)

  /** One bin array of at most 64 activations. */
  type Bin = seq<SpanActivation>

  /** A bin followed by the bins reached through `next`. */
  type Chain = seq<Bin>

  type Period = seq<Chain>

  function BinIndex(profilerStart: int, ts: int): int {
    TruncDiv(ts - profilerStart, BIN_WIDTH)
  }

  predicate Covers(a: SpanActivation, ts: int) {
    a.startTime <= ts <= a.endTime
  }

  // ----- the reference: a scan over everything inserted

  /** The scan of the source's inner loop, starting from the best match so far. */
  function ScanFrom(best: Option<SpanActivation>, s: seq<SpanActivation>, ts: int): Option<SpanActivation>
    decreases s
  {
    if s == [] then best
    else
      var better := Covers(s[0], ts) && (best.None? || s[0].startTime > best.value.startTime);
      ScanFrom(if better then Some(s[0]) else best, s[1..], ts)
  }

  function LinearScan(s: seq<SpanActivation>, ts: int): Option<SpanActivation> {
    ScanFrom(None, s, ts)
  }

  /** `a` is, among the activations covering `ts`, the earliest inserted of those with the greatest start. */
  ghost predicate IsClosest(s: seq<SpanActivation>, ts: int, i: nat)
    requires i < |s|
  {
    && s[i].startTime <= ts <= s[i].endTime
    && (forall j :: 0 <= j < |s| && s[j].startTime <= ts <= s[j].endTime ==> s[j].startTime <= s[i].startTime)
    && (forall j :: 0 <= j < i && s[j].startTime <= ts <= s[j].endTime ==> s[j].startTime < s[i].startTime)
  }

  lemma {:induction false} ScanSplit(best: Option<SpanActivation>, s: seq<SpanActivation>, t: seq<SpanActivation>,
      ts: int)
    ensures ScanFrom(best, s + t, ts) == ScanFrom(ScanFrom(best, s, ts), t, ts)
    decreases s
  {
    if s == [] {
      assert s + t == t;
    } else {
      assert (s + t)[1..] == s[1..] + t;
      var better := Covers(s[0], ts) && (best.None? || s[0].startTime > best.value.startTime);
      ScanSplit(if better then Some(s[0]) else best, s[1..], t, ts);
    }
  }

  /** What the scan finds, in both directions. */
  lemma {:induction false} LinearScanFindsClosest(s: seq<SpanActivation>, ts: int)
    ensures LinearScan(s, ts).None? <==> forall j :: 0 <= j < |s| ==> !(s[j].startTime <= ts <= s[j].endTime)
    ensures LinearScan(s, ts).Some? ==>
              exists i: nat :: i < |s| && IsClosest(s, ts, i) && LinearScan(s, ts).value == s[i]
  {
    if s != [] {
      var front, last := s[..|s| - 1], s[|s| - 1];
      LinearScanFindsClosest(front, ts);
      assert s == front + [last];
      ScanSplit(None, front, [last], ts);
      var before := LinearScan(front, ts);
      if LinearScan(s, ts).Some? {
        if LinearScan(s, ts) == before {
          var i: nat :| i < |front| && IsClosest(front, ts, i) && before.value == front[i];
          assert IsClosest(s, ts, i);
        } else {
          assert IsClosest(s, ts, |s| - 1);
        }
      }
    }
  }

  // ----- what one bin holds

  predicate InBin(profilerStart: int, a: SpanActivation, b: int) {
    BinIndex(profilerStart, a.startTime) <= b <= BinIndex(profilerStart, a.endTime)
  }

  /** The activations of `s` that overlap bin `b`, in order. */
  function Overlapping(profilerStart: int, s: seq<SpanActivation>, b: int): seq<SpanActivation> {
    if s == [] then []
    else
      var front := Overlapping(profilerStart, s[..|s| - 1], b);
      if InBin(profilerStart, s[|s| - 1], b) then front + [s[|s| - 1]] else front
  }

  function Flatten(c: Chain): seq<SpanActivation> {
    if c == [] then [] else Flatten(c[..|c| - 1]) + c[|c| - 1]
  }

  lemma {:induction false} OverlappingAppend(profilerStart: int, s: seq<SpanActivation>, a: SpanActivation, b: int)
    ensures Overlapping(profilerStart, s + [a], b)
         == Overlapping(profilerStart, s, b) + (if InBin(profilerStart, a, b) then [a] else [])
  {
    assert (s + [a])[..|s + [a]| - 1] == s;
  }

  /** An activation covering `ts` overlaps the bin of `ts`, so scanning that bin alone is enough. */
  lemma {:induction false} ScanOneBin(profilerStart: int, s: seq<SpanActivation>, ts: int)
    requires profilerStart <= ts
    requires forall a :: a in s ==> profilerStart <= a.startTime
    ensures LinearScan(Overlapping(profilerStart, s, BinIndex(profilerStart, ts)), ts) == LinearScan(s, ts)
  {
    if s != [] {
      var front, last := s[..|s| - 1], s[|s| - 1];
      ScanOneBin(profilerStart, front, ts);
      assert s == front + [last];
      ScanSplit(None, front, [last], ts);
      var b := BinIndex(profilerStart, ts);
      if InBin(profilerStart, last, b) {
        ScanSplit(None, Overlapping(profilerStart, front, b), [last], ts);
      } else {
        assert !Covers(last, ts);
      }
    }
  }

  // ----- the stored form

  predicate ChainShape(c: Chain) {
    && c != []
    && (forall i :: 0 <= i < |c| - 1 ==> |c[i]| == ACTIVATIONS_PER_BIN)
    && |c[|c| - 1]| <= ACTIVATIONS_PER_BIN
  }

  function NewPeriod(): (p: Period)
    ensures |p| == BINS_PER_PERIOD && forall b :: 0 <= b < |p| ==> p[b] == [[]]
  {
    seq(BINS_PER_PERIOD, b => [[]])
  }

  /** The chain of bin `x` holds, in order, the activations of `s` that overlap the bin. */
  ghost predicate Cell(c: Chain, profilerStart: int, s: seq<SpanActivation>, x: int) {
    ChainShape(c) && Flatten(c) == Overlapping(profilerStart, s, x)
  }

  /** Bins below `border` hold `s` and the others hold `t`. */
  ghost predicate Holds(periods: seq<Period>, profilerStart: int, s: seq<SpanActivation>, t: seq<SpanActivation>,
      border: int)
  {
    && (forall p :: 0 <= p < |periods| ==> |periods[p]| == BINS_PER_PERIOD)
    && (forall p, b :: 0 <= p < |periods| && 0 <= b < BINS_PER_PERIOD ==>
          Cell(periods[p][b], profilerStart,
               if p * BINS_PER_PERIOD + b < border then s else t, p * BINS_PER_PERIOD + b))
  }

  ghost predicate Within(periods: seq<Period>, profilerStart: int, s: seq<SpanActivation>) {
    forall a :: a in s ==>
      profilerStart <= a.startTime <= a.endTime && BinIndex(profilerStart, a.endTime) < |periods| * BINS_PER_PERIOD
  }

  lemma {:induction false} NothingOverlaps(profilerStart: int, s: seq<SpanActivation>, b: int)
    requires forall a :: a in s ==> !InBin(profilerStart, a, b)
    ensures Overlapping(profilerStart, s, b) == []
  {
    if s != [] {
      NothingOverlaps(profilerStart, s[..|s| - 1], b);
    }
  }

  /** Linking a new period at the end of the list changes nothing stored. */
  lemma {:induction false} NewPeriodHolds(periods: seq<Period>, profilerStart: int, s: seq<SpanActivation>,
      t: seq<SpanActivation>, border: int)
    requires Holds(periods, profilerStart, s, t, border)
    requires Within(periods, profilerStart, t) && border <= |periods| * BINS_PER_PERIOD
    ensures Holds(periods + [NewPeriod()], profilerStart, s, t, border)
    ensures Within(periods + [NewPeriod()], profilerStart, t)
  {
    var n := |periods|;
    forall b | 0 <= b < BINS_PER_PERIOD
      ensures ChainShape(NewPeriod()[b])
      ensures Flatten(NewPeriod()[b]) == Overlapping(profilerStart, t, n * BINS_PER_PERIOD + b)
    {
      NothingOverlaps(profilerStart, t, n * BINS_PER_PERIOD + b);
      assert NewPeriod()[b] == [[]];
      assert Flatten([[]]) == [];
    }
  }

  lemma {:induction false} FlattenUpdateLast(c: Chain, a: SpanActivation)
    requires c != []
    ensures Flatten(c[|c| - 1 := c[|c| - 1] + [a]]) == Flatten(c) + [a]
  {
    assert c[|c| - 1 := c[|c| - 1] + [a]][..|c| - 1] == c[..|c| - 1];
  }

  lemma {:induction false} FlattenNewBin(c: Chain, a: SpanActivation)
    ensures Flatten(c + [[a]]) == Flatten(c) + [a]
  {
    assert (c + [[a]])[..|c|] == c;
  }

  /** Storing `a` in the border bin moves the border past it. */
  lemma {:induction false} BorderMoves(periods: seq<Period>, profilerStart: int, s: seq<SpanActivation>,
      a: SpanActivation, p: nat, b: nat, c: Chain)
    requires p < |periods| && b < BINS_PER_PERIOD
    requires Holds(periods, profilerStart, s + [a], s, p * BINS_PER_PERIOD + b)
    requires InBin(profilerStart, a, p * BINS_PER_PERIOD + b)
    requires ChainShape(c) && Flatten(c) == Flatten(periods[p][b]) + [a]
    ensures Holds(periods[p := periods[p][b := c]], profilerStart, s + [a], s, p * BINS_PER_PERIOD + b + 1)
  {
    hide Cell, Overlapping, Flatten, ChainShape, InBin;
    var x := p * BINS_PER_PERIOD + b;
    CellGrows(periods[p][b], c, profilerStart, s, a, x);
    var periods' := periods[p := periods[p][b := c]];
    forall q, d | 0 <= q < |periods'| && 0 <= d < BINS_PER_PERIOD
      ensures Cell(periods'[q][d], profilerStart,
                   if q * BINS_PER_PERIOD + d < x + 1 then s + [a] else s, q * BINS_PER_PERIOD + d)
    {
      if !(q == p && d == b) {
        assert q * BINS_PER_PERIOD + d != x && periods'[q][d] == periods[q][d];
      }
    }
  }

  lemma {:induction false} CellGrows(before: Chain, c: Chain, profilerStart: int, s: seq<SpanActivation>,
      a: SpanActivation, x: int)
    requires Cell(before, profilerStart, s, x) && InBin(profilerStart, a, x)
    requires ChainShape(c) && Flatten(c) == Flatten(before) + [a]
    ensures Cell(c, profilerStart, s + [a], x)
  {
    OverlappingAppend(profilerStart, s, a, x);
  }

  /** Bins before the first or after the last one `a` overlaps do not notice it. */
  lemma {:induction false} OutsideBins(periods: seq<Period>, profilerStart: int, s: seq<SpanActivation>,
      a: SpanActivation, first: int, last: int)
    requires first == BinIndex(profilerStart, a.startTime) && last == BinIndex(profilerStart, a.endTime)
    ensures Holds(periods, profilerStart, s, s, 0) ==> Holds(periods, profilerStart, s + [a], s, first)
    ensures Holds(periods, profilerStart, s + [a], s, last + 1) ==> Holds(periods, profilerStart, s + [a], s + [a], 0)
  {
    forall p, b | 0 <= p < |periods| && 0 <= b < BINS_PER_PERIOD && |periods[p]| == BINS_PER_PERIOD
      ensures var x := p * BINS_PER_PERIOD + b;
              !(first <= x <= last) ==>
                (Cell(periods[p][b], profilerStart, s + [a], x) <==> Cell(periods[p][b], profilerStart, s, x))
    {
      OverlappingAppend(profilerStart, s, a, p * BINS_PER_PERIOD + b);
    }
  }

  lemma {:induction false} ScanOneMore(s: seq<SpanActivation>, a: SpanActivation, ts: int)
    ensures LinearScan(s + [a], ts) ==
            if Covers(a, ts) && (LinearScan(s, ts).None? || a.startTime > LinearScan(s, ts).value.startTime)
            then Some(a) else LinearScan(s, ts)
  {
    ScanSplit(None, s, [a], ts);
  }

  lemma {:induction false} BinOrder(profilerStart: int, a: SpanActivation)
    requires profilerStart <= a.startTime <= a.endTime
    ensures 0 <= BinIndex(profilerStart, a.startTime) <= BinIndex(profilerStart, a.endTime)
    ensures forall b :: InBin(profilerStart, a, b)
                    <==> BinIndex(profilerStart, a.startTime) <= b <= BinIndex(profilerStart, a.endTime)
  {
  }

  lemma {:induction false} WithinAppend(periods: seq<Period>, profilerStart: int, s: seq<SpanActivation>,
      a: SpanActivation)
    requires Within(periods, profilerStart, s)
    requires profilerStart <= a.startTime <= a.endTime
    requires BinIndex(profilerStart, a.endTime) < |periods| * BINS_PER_PERIOD
    ensures Within(periods, profilerStart, s + [a])
  {
  }

  class Index {
    var profilerStart: int
    var periods: seq<Period>
    ghost var inserted: seq<SpanActivation>

    ghost predicate Valid()
      reads this
    {
      && |periods| > 0
      && Holds(periods, profilerStart, inserted, inserted, 0)
      && Within(periods, profilerStart, inserted)
    }

    constructor (start: int)
      ensures Valid() && inserted == [] && profilerStart == start
    {
      profilerStart := start;
      periods := [NewPeriod()];
      inserted := [];
      new;
      NewPeriodHolds([], profilerStart, [], [], 0);
      assert [] + [NewPeriod()] == [NewPeriod()];
    }

    /** The index part of `ProfilingReset`. */
    method Reset()
      modifies this
      ensures Valid() && inserted == [] && profilerStart == old(profilerStart)
    {
      periods := [NewPeriod()];
      inserted := [];
      NewPeriodHolds([], profilerStart, [], [], 0);
      assert [] + [NewPeriod()] == [NewPeriod()];
    }

    /** Moves the profiling start.  That is harmless while nothing is stored, and spoils the index when the start
        moves past a stored activation. */
    method SetStart(start: int)
      requires Valid()
      modifies this`profilerStart
      ensures profilerStart == start
      ensures inserted == [] ==> Valid()
      ensures (exists a :: a in inserted && a.startTime < start) ==> !Valid()
    {
      profilerStart := start;
    }

    /** Finds the period and bin of `binIndex`, linking new empty periods at the end of the list as needed. */
    method GetActivationBin(binIndex: nat, ghost s: seq<SpanActivation>, ghost t: seq<SpanActivation>,
        ghost border: int)
      returns (p: nat, b: nat)
      requires |periods| > 0 && border <= |periods| * BINS_PER_PERIOD
      requires Holds(periods, profilerStart, s, t, border) && Within(periods, profilerStart, t)
      modifies this`periods
      ensures p < |periods| && b < BINS_PER_PERIOD && p * BINS_PER_PERIOD + b == binIndex
      ensures Holds(periods, profilerStart, s, t, border) && Within(periods, profilerStart, t)
      ensures old(periods) <= periods && forall q :: |old(periods)| <= q < |periods| ==> periods[q] == NewPeriod()
    {
      hide Holds, Within, NewPeriod;
      var periodIndex := binIndex / BINS_PER_PERIOD;
      var current := 0;
      while current < periodIndex
        invariant current < |periods| && current <= periodIndex && border <= |periods| * BINS_PER_PERIOD
        invariant Holds(periods, profilerStart, s, t, border) && Within(periods, profilerStart, t)
        invariant old(periods) <= periods && forall q :: |old(periods)| <= q < |periods| ==> periods[q] == NewPeriod()
      {
        if current + 1 >= |periods| {
          NewPeriodHolds(periods, profilerStart, s, t, border);
          periods := periods + [NewPeriod()];
        }
        current := current + 1;
      }
      p, b := current, binIndex - periodIndex * BINS_PER_PERIOD;
    }

    /** Appends `a` to the last bin of a chain, linking a new bin when that one is full. */
    method BinInsertActivation(p: nat, b: nat, a: SpanActivation)
      requires p < |periods| && b < |periods[p]| && ChainShape(periods[p][b])
      modifies this`periods
      ensures |periods| == |old(periods)|
      ensures exists c :: ChainShape(c) && Flatten(c) == Flatten(old(periods)[p][b]) + [a]
                       && periods == old(periods)[p := old(periods)[p][b := c]]
    {
      var c := periods[p][b];
      var j := 0;
      while j + 1 < |c|
        invariant j < |c|
      {
        j := j + 1;
      }
      FlattenUpdateLast(c, a);
      FlattenNewBin(c, a);
      c := if |c[j]| == ACTIVATIONS_PER_BIN then c + [[a]] else c[j := c[j] + [a]];
      periods := periods[p := periods[p][b := c]];
    }

    /** Spreads a completed activation over every bin it overlaps. */
    method InsertActivation(a: SpanActivation)
      requires Valid() && profilerStart <= a.startTime <= a.endTime
      modifies this
      ensures Valid() && inserted == old(inserted) + [a] && profilerStart == old(profilerStart)
    {
      hide Holds, Within, Cell, BinIndex, InBin;
      BinOrder(profilerStart, a);
      var startBin := BinIndex(profilerStart, a.startTime);
      var endBin := BinIndex(profilerStart, a.endTime);
      ghost var s := inserted;
      var p, b := GetActivationBin(startBin, s, s, 0);
      OutsideBins(periods, profilerStart, s, a, startBin, endBin);
      StoreAt(p, b, a, s);
      for i := startBin + 1 to endBin + 1
        invariant profilerStart == old(profilerStart)
        invariant |periods| > 0 && i <= |periods| * BINS_PER_PERIOD
        invariant Holds(periods, profilerStart, s + [a], s, i) && Within(periods, profilerStart, s)
      {
        p, b := GetActivationBin(i, s + [a], s, i);
        StoreAt(p, b, a, s);
      }
      OutsideBins(periods, profilerStart, s, a, startBin, endBin);
      WithinAppend(periods, profilerStart, s, a);
      inserted := s + [a];
    }

    /** One store of `InsertActivation`: the bin found takes `a`, and the border moves past it. */
    method StoreAt(p: nat, b: nat, a: SpanActivation, ghost s: seq<SpanActivation>)
      requires p < |periods| && b < BINS_PER_PERIOD && InBin(profilerStart, a, p * BINS_PER_PERIOD + b)
      requires Holds(periods, profilerStart, s + [a], s, p * BINS_PER_PERIOD + b) && Within(periods, profilerStart, s)
      modifies this`periods
      ensures |periods| == |old(periods)|
      ensures Holds(periods, profilerStart, s + [a], s, p * BINS_PER_PERIOD + b + 1)
      ensures Within(periods, profilerStart, s)
    {
      ghost var before := periods;
      BinInsertActivation(p, b, a);
      ghost var c :| ChainShape(c) && Flatten(c) == Flatten(before[p][b]) + [a]
          && periods == before[p := before[p][b := c]];
      BorderMoves(before, profilerStart, s, a, p, b, c);
    }

    /** The activation the lookup picks for a timestamp. */
    method FindClosestActivation(ts: int) returns (r: Option<SpanActivation>)
      requires Valid() && profilerStart <= ts
      modifies this`periods
      ensures Valid() && r == LinearScan(inserted, ts)
      ensures old(periods) <= periods && forall q :: |old(periods)| <= q < |periods| ==> periods[q] == NewPeriod()
    {
      hide Within, Overlapping, ScanFrom, NewPeriod;
      var p, b := GetActivationBin(BinIndex(profilerStart, ts), inserted, inserted, 0);
      var chain := periods[p][b];
      assert Cell(chain, profilerStart, inserted, BinIndex(profilerStart, ts));
      OnlyOneBin(profilerStart, inserted, periods, ts);
      r := ScanChain(chain, ts);
    }
  }

  lemma {:induction false} OnlyOneBin(profilerStart: int, s: seq<SpanActivation>, periods: seq<Period>, ts: int)
    requires Within(periods, profilerStart, s) && profilerStart <= ts
    ensures LinearScan(Overlapping(profilerStart, s, BinIndex(profilerStart, ts)), ts) == LinearScan(s, ts)
  {
    ScanOneBin(profilerStart, s, ts);
  }

  /** The two loops of the lookup. */
  method ScanChain(chain: Chain, ts: int) returns (r: Option<SpanActivation>)
    ensures r == LinearScan(Flatten(chain), ts)
  {
    hide ScanFrom;
    r := None;
    NothingScanned(ts);
    assert chain[..0] == [];
    for j := 0 to |chain|
      invariant r == LinearScan(Flatten(chain[..j]), ts)
    {
      assert chain[..j + 1][..j] == chain[..j];
      r := ScanBin(Flatten(chain[..j]), r, chain[j], ts);
    }
    assert chain[..|chain|] == chain;
  }

  lemma {:induction false} NothingScanned(ts: int)
    ensures LinearScan([], ts) == None
  {
  }

  /** The scan of one bin, after the bins that hold `before`. */
  method ScanBin(ghost before: seq<SpanActivation>, best: Option<SpanActivation>, bin: Bin, ts: int)
    returns (r: Option<SpanActivation>)
    requires best == LinearScan(before, ts)
    ensures r == LinearScan(before + bin, ts)
  {
    hide LinearScan;
    r := best;
    assert before + bin[..0] == before;
    for i := 0 to |bin|
      invariant r == LinearScan(before + bin[..i], ts)
    {
      assert before + bin[..i + 1] == before + bin[..i] + [bin[i]];
      ScanOneMore(before + bin[..i], bin[i], ts);
      var activation := bin[i];
      if activation.startTime <= ts && ts <= activation.endTime {
        if r.None? || activation.startTime > r.value.startTime {
          r := Some(activation);
        }
      }
    }
    assert bin[..|bin|] == bin;
  }
}
