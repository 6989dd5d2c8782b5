/** Which allocation samples a heap collection reports: those not tracked since the previous collection. */
module HeapTracking {
  import opened Buckets
  import opened KHash

  datatype Sample = Sample(id: nat, nodeId: nat, size: nat)

  function Ids(samples: seq<Sample>): set<nat> {
    set s | s in samples :: s.id
  }

  /** The samples emitted when `tracked` are the ids already known. */
  function Emitted(tracked: set<nat>, samples: seq<Sample>): seq<Sample> {
    if samples == [] then []
    else
      var front, last := samples[..|samples| - 1], samples[|samples| - 1];
      Emitted(tracked, front) + (if last.id in tracked + Ids(front) then [] else [last])
  }

  function CountOf(samples: seq<Sample>, id: nat): nat {
    if samples == [] then 0
    else CountOf(samples[..|samples| - 1], id) + (if samples[|samples| - 1].id == id then 1 else 0)
  }

  /** An id is emitted once if it is new and present, whatever its number of samples, and otherwise not at all. */
  lemma {:induction false} EmittedOnce(tracked: set<nat>, samples: seq<Sample>, id: nat)
    ensures CountOf(Emitted(tracked, samples), id) == if id in Ids(samples) && id !in tracked then 1 else 0
    ensures forall s :: s in Emitted(tracked, samples) ==> s in samples
  {
    hide Ids, Emitted, CountOf;
    if samples == [] {
      NothingEmitted(tracked, id);
    } else {
      var front, last := samples[..|samples| - 1], samples[|samples| - 1];
      EmittedOnce(tracked, front, id);
      assert samples == front + [last];
      IdsAppend(front, last);
      EmittedAppend(tracked, front, last);
      CountAppend(Emitted(tracked, front), last, id);
    }
  }

  lemma {:induction false} NothingEmitted(tracked: set<nat>, id: nat)
    ensures Emitted(tracked, []) == [] && CountOf([], id) == 0 && Ids([]) == {}
  {
  }

  /** Sample `i` is the first of its id, which is new. */
  ghost predicate IsFirst(tracked: set<nat>, samples: seq<Sample>, i: nat) {
    i < |samples| && samples[i].id !in tracked && forall j :: 0 <= j < i ==> samples[j].id != samples[i].id
  }

  lemma {:induction false} FirstOneMore(tracked: set<nat>, front: seq<Sample>, last: Sample, i: nat)
    ensures IsFirst(tracked, front + [last], i) <==>
            IsFirst(tracked, front, i) || (i == |front| && last.id !in tracked + Ids(front))
    ensures IsFirst(tracked, front, i) ==> i < |front|
  {
    var all := front + [last];
    assert forall j :: 0 <= j < |front| ==> all[j] == front[j] && front[j] in front;
    assert all[|front|] == last;
  }

  /** `at` are the indices of the first samples of new ids, all of them, in order, and `e` these samples. */
  ghost predicate Firsts(tracked: set<nat>, samples: seq<Sample>, at: seq<nat>, e: seq<Sample>) {
    && |at| == |e|
    && (forall k :: 0 <= k < |at| ==> IsFirst(tracked, samples, at[k]) && e[k] == samples[at[k]])
    && (forall k, l :: 0 <= k < l < |at| ==> at[k] < at[l])
    && (forall i: nat :: IsFirst(tracked, samples, i) ==> i in at)
  }

  lemma {:induction false} FirstsOneMore(tracked: set<nat>, front: seq<Sample>, last: Sample, at: seq<nat>,
      e: seq<Sample>)
    requires Firsts(tracked, front, at, e)
    ensures if last.id in tracked + Ids(front) then Firsts(tracked, front + [last], at, e)
            else Firsts(tracked, front + [last], at + [|front|], e + [last])
  {
    hide IsFirst, Ids;
    var all := front + [last];
    forall i: nat
      ensures IsFirst(tracked, all, i) <==>
              IsFirst(tracked, front, i) || (i == |front| && last.id !in tracked + Ids(front))
      ensures IsFirst(tracked, front, i) ==> i < |front|
    {
      FirstOneMore(tracked, front, last, i);
    }
  }

  /** What is emitted are the first samples of the new ids, all of them, in their order. */
  lemma {:induction false} EmittedAreFirsts(tracked: set<nat>, samples: seq<Sample>) returns (at: seq<nat>)
    ensures Firsts(tracked, samples, at, Emitted(tracked, samples))
  {
    hide Firsts;
    if samples == [] {
      at := [];
      NoneFirst(tracked);
    } else {
      var front, last := samples[..|samples| - 1], samples[|samples| - 1];
      at := EmittedAreFirsts(tracked, front);
      assert samples == front + [last];
      FirstsOneMore(tracked, front, last, at, Emitted(tracked, front));
      EmittedAppend(tracked, front, last);
      if last.id !in tracked + Ids(front) {
        at := at + [|front|];
      } else {
        assert Emitted(tracked, front) + [] == Emitted(tracked, front);
      }
    }
  }

  lemma {:induction false} NoneFirst(tracked: set<nat>)
    ensures Firsts(tracked, [], [], Emitted(tracked, []))
  {
  }

  lemma {:induction false} CountAppend(e: seq<Sample>, s: Sample, id: nat)
    ensures CountOf(e + [s], id) == CountOf(e, id) + (if s.id == id then 1 else 0)
    ensures e + [] == e
  {
    assert (e + [s])[..|e|] == e;
  }

  // ----- runs of collections

  /** What collection `i` of a run emits, each one tracking exactly the ids of the one before. */
  function Reported(collections: seq<seq<Sample>>, i: nat): seq<Sample>
    requires i < |collections|
  {
    Emitted(if i == 0 then {} else Ids(collections[i - 1]), collections[i])
  }

  /** A maximal stretch of consecutive collections that contain `id`. */
  predicate IsStretch(collections: seq<seq<Sample>>, id: nat, a: nat, b: nat) {
    && a < b <= |collections|
    && (forall i :: a <= i < b ==> id in Ids(collections[i]))
    && (a > 0 ==> id !in Ids(collections[a - 1]))
    && (b < |collections| ==> id !in Ids(collections[b]))
  }

  /** How often `id` is emitted in the collections from `a` up to `b`. */
  function Times(collections: seq<seq<Sample>>, id: nat, a: nat, b: nat): nat
    requires a <= b <= |collections|
    decreases b
  {
    if a == b then 0 else Times(collections, id, a, b - 1) + CountOf(Reported(collections, b - 1), id)
  }

  lemma {:induction false} TimesInStretch(collections: seq<seq<Sample>>, id: nat, a: nat, b: nat)
    requires a < b <= |collections| && (forall i :: a <= i < b ==> id in Ids(collections[i]))
    requires a > 0 ==> id !in Ids(collections[a - 1])
    ensures Times(collections, id, a, b) == 1
    decreases b
  {
    hide Ids, Emitted, CountOf;
    EmittedOnce(if b == 1 then {} else Ids(collections[b - 2]), collections[b - 1], id);
    if a < b - 1 {
      TimesInStretch(collections, id, a, b - 1);
    }
  }

  /** Over any run a sample is emitted exactly once for each maximal stretch of collections that contain its id,
      at its first collection, and never outside. */
  lemma {:induction false} OncePerStretch(collections: seq<seq<Sample>>, id: nat, a: nat, b: nat)
    requires IsStretch(collections, id, a, b)
    ensures Times(collections, id, a, b) == 1 && CountOf(Reported(collections, a), id) == 1
    ensures forall i :: 0 <= i < |collections| && id !in Ids(collections[i]) ==>
        CountOf(Reported(collections, i), id) == 0
  {
    TimesInStretch(collections, id, a, b);
    EmittedOnce(if a == 0 then {} else Ids(collections[a - 1]), collections[a], id);
    forall i | 0 <= i < |collections| && id !in Ids(collections[i])
      ensures CountOf(Reported(collections, i), id) == 0
    {
      EmittedOnce(if i == 0 then {} else Ids(collections[i - 1]), collections[i], id);
    }
  }

  // ----- one collection, on the hash table

  lemma {:induction false} IdsAppend(samples: seq<Sample>, s: Sample)
    ensures Ids(samples + [s]) == Ids(samples) + {s.id}
  {
  }

  lemma {:induction false} EmittedAppend(tracked: set<nat>, samples: seq<Sample>, s: Sample)
    ensures Emitted(tracked, samples + [s]) ==
        Emitted(tracked, samples) + (if s.id in tracked + Ids(samples) then [] else [s])
  {
    assert (samples + [s])[..|samples|] == samples;
  }

  /** The tracking table of the memory profiler; the hash of its 64-bit keys is an arbitrary function. */
  class MemoryProfiling {
    var generation: nat
    const tracking: HashTable<nat, nat>

    ghost predicate Valid()
      reads this, tracking, tracking.Repr()
    {
      && tracking.Valid() && tracking.nBuckets < MAX_BUCKETS
      && forall k :: k in tracking.Contents() ==> tracking.Contents()[k] <= generation
    }

    /** The ids the table tracks. */
    ghost function Tracked(): set<nat>
      requires Valid()
      reads this, tracking, tracking.Repr()
    {
      tracking.Contents().Keys
    }

    constructor (hash: nat -> nat)
      ensures Valid() && Tracked() == {} && fresh(tracking.Repr())
    {
      generation := 0;
      tracking := new HashTable<nat, nat>(hash);
    }

    /** The sample part of `CollectHeapProfile`, with allocation succeeding: emits the new samples and drops the
        ids that are gone.  The table has room for the ids of both collections. */
    method CollectSamples(samples: seq<Sample>) returns (emitted: seq<Sample>)
      requires Valid() && 4 * (|Tracked()| + |samples|) < MAX_BUCKETS
      modifies this, tracking.Repr()
      ensures Valid() && fresh(tracking.Repr() - old(tracking.Repr()))
      ensures emitted == Emitted(old(Tracked()), samples)
      ensures Tracked() == Ids(samples)
    {
      hide HashTable.Valid, HashTable.Contents, HashTable.InBucket, HashTable.Exists, Emitted, Ids;
      tracking.SizeOfContents();
      generation := generation + 1;
      emitted := TrackAndSweep(tracking, samples, generation);
    }
  }

  /** Both loops over the table. */
  method TrackAndSweep(tracking: HashTable<nat, nat>, samples: seq<Sample>, generation: nat)
    returns (emitted: seq<Sample>)
    requires tracking.Valid() && tracking.nBuckets < MAX_BUCKETS && 4 * (tracking.size + |samples|) < MAX_BUCKETS
    requires forall k :: k in tracking.Contents() ==> tracking.Contents()[k] < generation
    modifies tracking.Repr()
    ensures tracking.Valid() && fresh(tracking.Repr() - old(tracking.Repr())) && tracking.nBuckets < MAX_BUCKETS
    ensures emitted == Emitted(old(tracking.Contents()).Keys, samples)
    ensures tracking.Contents().Keys == Ids(samples)
    ensures forall k :: k in tracking.Contents() ==> tracking.Contents()[k] == generation
  {
    hide HashTable.Valid, HashTable.Contents, HashTable.InBucket, HashTable.Exists, Emitted, Ids, Marked;
    ghost var before := tracking.Contents();
    emitted := Track(tracking, samples, generation);
    MarkedKeys(tracking.Contents(), before, Ids(samples), generation);
    Sweep(tracking, generation);
  }

  lemma {:induction false} FewIds(samples: seq<Sample>)
    ensures |Ids(samples)| <= |samples|
  {
    if samples != [] {
      var front, last := samples[..|samples| - 1], samples[|samples| - 1];
      FewIds(front);
      assert samples == front + [last];
      IdsAppend(front, last);
    }
  }

  /** A run: one collection after the other.  Each emits what `Reported` says, so `OncePerStretch` is about them. */
  method CollectRun(hash: nat -> nat, collections: seq<seq<Sample>>) returns (emitted: seq<seq<Sample>>)
    requires forall i :: 0 <= i < |collections| ==> 8 * |collections[i]| < MAX_BUCKETS
    ensures |emitted| == |collections| && forall i :: 0 <= i < |collections| ==> emitted[i] == Reported(collections, i)
  {
    hide Emitted, Ids, MemoryProfiling.Valid, MemoryProfiling.Tracked;
    var profiling := new MemoryProfiling(hash);
    emitted := [];
    for i := 0 to |collections|
      invariant profiling.Valid() && fresh(profiling) && fresh(profiling.tracking.Repr())
      invariant profiling.Tracked() == (if i == 0 then {} else Ids(collections[i - 1]))
      invariant |emitted| == i && forall j :: 0 <= j < i ==> emitted[j] == Reported(collections, j)
    {
      if i > 0 {
        FewIds(collections[i - 1]);
      }
      var e := profiling.CollectSamples(collections[i]);
      emitted := emitted + [e];
    }
  }

  /** Of the marked ids exactly the seen ones carry the new generation. */
  lemma {:induction false} MarkedKeys(c: map<nat, nat>, before: map<nat, nat>, seen: set<nat>, generation: nat)
    requires Marked(c, before, seen, generation) && forall k :: k in before ==> before[k] < generation
    ensures (map k | k in c && c[k] == generation :: generation).Keys == seen
  {
  }

  /** What the tracking loop leaves: the ids seen carry the new generation, the others what they had. */
  ghost predicate Marked(c: map<nat, nat>, before: map<nat, nat>, seen: set<nat>, generation: nat) {
    && c.Keys == before.Keys + seen
    && (forall k :: k in seen ==> c[k] == generation)
    && (forall k :: k in before && k !in seen ==> c[k] == before[k])
  }

  lemma {:induction false} MarkedStep(c: map<nat, nat>, before: map<nat, nat>, seen: set<nat>, generation: nat, id: nat)
    requires Marked(c, before, seen, generation)
    ensures Marked(c[id := generation], before, seen + {id}, generation)
    ensures id in c <==> id in before.Keys + seen
  {
  }

  method Track(tracking: HashTable<nat, nat>, samples: seq<Sample>, generation: nat) returns (emitted: seq<Sample>)
    requires tracking.Valid() && tracking.nBuckets < MAX_BUCKETS && 4 * (tracking.size + |samples|) < MAX_BUCKETS
    modifies tracking.Repr()
    ensures tracking.Valid() && fresh(tracking.Repr() - old(tracking.Repr()))
    ensures emitted == Emitted(old(tracking.Contents()).Keys, samples)
    ensures Marked(tracking.Contents(), old(tracking.Contents()), Ids(samples), generation)
    ensures tracking.nBuckets < MAX_BUCKETS
  {
    hide HashTable.Valid, HashTable.Contents, HashTable.InBucket, HashTable.Exists, Emitted, Ids, Marked;
    ghost var before, size0 := tracking.Contents(), tracking.size;
    emitted := [];
    NothingSeen(before, generation);
    assert samples[..0] == [];
    for i := 0 to |samples|
      invariant tracking.Valid() && fresh(tracking.Repr() - old(tracking.Repr()))
      invariant tracking.nBuckets < MAX_BUCKETS && tracking.size <= size0 + i
      invariant emitted == Emitted(before.Keys, samples[..i])
      invariant Marked(tracking.Contents(), before, Ids(samples[..i]), generation)
    {
      var sample := samples[i];
      assert samples[..i + 1] == samples[..i] + [sample];
      IdsAppend(samples[..i], sample);
      EmittedAppend(before.Keys, samples[..i], sample);
      MarkedStep(tracking.Contents(), before, Ids(samples[..i]), generation, sample.id);
      var found := tracking.Get(sample.id);
      if found == tracking.nBuckets {
        emitted := emitted + [sample];
      }
      PutGeneration(tracking, sample.id, generation);
    }
    assert samples[..|samples|] == samples;
  }

  lemma {:induction false} NothingSeen(before: map<nat, nat>, generation: nat)
    ensures Marked(before, before, Ids([]), generation) && Emitted(before.Keys, []) == []
  {
  }

  /** `kh_put` of an id, and the assignment of its generation. */
  method PutGeneration(tracking: HashTable<nat, nat>, id: nat, generation: nat)
    requires tracking.Valid() && tracking.nBuckets < MAX_BUCKETS
    modifies tracking.Repr()
    ensures tracking.Valid() && fresh(tracking.Repr() - old(tracking.Repr()))
    ensures tracking.Contents() == old(tracking.Contents())[id := generation]
    ensures tracking.size <= old(tracking.size) + 1
    ensures tracking.nBuckets == old(tracking.nBuckets) || tracking.nBuckets == 4
        || tracking.nBuckets <= 4 * old(tracking.size)
  {
    hide HashTable.Valid, HashTable.Contents, HashTable.InBucket, HashTable.Exists;
    ghost var before := tracking.Contents();
    var x, ret := tracking.Put(id, Alloc(true, true, true));
    if ret != -1 {
      assert tracking.Contents()[id := generation] == before[id := generation];
      tracking.SetValue(x, generation, id);
    }
  }

  /** Only ids of other generations have gone. */
  ghost predicate Swept(c: map<nat, nat>, before: map<nat, nat>, generation: nat) {
    && (forall k :: k in c ==> k in before && c[k] == before[k])
    && (forall k :: k in before && before[k] == generation ==> k in c)
  }

  lemma {:induction false} SweptFurther(d: map<nat, nat>, c: map<nat, nat>, before: map<nat, nat>, generation: nat)
    requires Swept(c, before, generation) && Swept(d, c, generation)
    ensures Swept(d, before, generation)
  {
  }

  lemma {:induction false} SweptOut(c: map<nat, nat>, before: map<nat, nat>, generation: nat)
    requires Swept(c, before, generation) && forall k :: k in c ==> c[k] == generation
    ensures c == map k | k in before && before[k] == generation :: generation
  {
  }

  /** One bucket of the sweep. */
  method SweepBucket(tracking: HashTable<nat, nat>, it: nat, generation: nat)
    requires tracking.Valid() && it < tracking.nBuckets
    modifies tracking.Repr()
    ensures tracking.flags == old(tracking.flags) && tracking.keys == old(tracking.keys)
    ensures tracking.vals == old(tracking.vals)
    ensures tracking.nBuckets == old(tracking.nBuckets) <= tracking.vals.Length
    ensures tracking.vals[..] == old(tracking.vals[..])
    ensures tracking.Exists(it) ==> tracking.vals[it] == generation
    ensures forall x :: x != it ==> tracking.Exists(x) == old(tracking.Exists(x))
    ensures tracking.Valid() && Swept(tracking.Contents(), old(tracking.Contents()), generation)
  {
    hide HashTable.Valid, HashTable.Contents, HashTable.InBucket, HashTable.Exists;
    tracking.LiveBuckets();
    if !tracking.Exists(it) {
      return;
    }
    if tracking.vals[it] != generation {
      tracking.Del(it);
    }
  }

  /** The sweep over all buckets that deletes the ids of other generations. */
  method Sweep(tracking: HashTable<nat, nat>, generation: nat)
    requires tracking.Valid()
    modifies tracking.Repr()
    ensures tracking.Valid() && tracking.Repr() == old(tracking.Repr()) && tracking.nBuckets == old(tracking.nBuckets)
    ensures tracking.Contents() == map k | k in old(tracking.Contents()) && old(tracking.Contents())[k] == generation
                                   :: generation
  {
    hide HashTable.Valid, HashTable.Contents, HashTable.InBucket, HashTable.Exists, Swept;
    ghost var before := tracking.Contents();
    SweptNothing(before, generation);
    tracking.LiveBuckets();
    var n := tracking.nBuckets;
    for it := 0 to n
      invariant tracking.Valid() && tracking.nBuckets == n <= tracking.vals.Length
      invariant tracking.flags == old(tracking.flags) && tracking.keys == old(tracking.keys)
      invariant tracking.vals == old(tracking.vals)
      invariant Swept(tracking.Contents(), before, generation)
      invariant forall x :: 0 <= x < it && x < n && tracking.Exists(x) ==> tracking.vals[x] == generation
    {
      ghost var c := tracking.Contents();
      SweepBucket(tracking, it, generation);
      SweptFurther(tracking.Contents(), c, before, generation);
    }
    tracking.LiveBuckets();
    SweptOut(tracking.Contents(), before, generation);
  }

  lemma {:induction false} SweptNothing(before: map<nat, nat>, generation: nat)
    ensures Swept(before, before, generation)
  {
  }
}
