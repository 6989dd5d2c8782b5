/** The bucket layout of khash: flags, sizes, and which keys a probe finds. */
module Buckets {
  import opened Arithmetic
  import opened Probing
  import opened Counting

  /** The two bits khash keeps for each bucket: bit 1 "empty" and bit 0 "deleted". */
  datatype Flag = Flag(empty: bool, del: bool)

  const EMPTY_FLAG := Flag(true, false)
  const LIVE_FLAG := Flag(false, false)

  predicate Live(f: Flag) { !f.empty && !f.del }

  predicate Occupied(f: Flag) { !f.empty }

  /** Which of the allocations inside `kh_resize` succeed. */
  datatype Alloc = Alloc(flags: bool, keys: bool, vals: bool)

  /** `(khint_t)(n * 0.77 + 0.5)` for a power of two `n`. */
  function UpperBound(n: nat): nat { (77 * n + 50) / 100 }

  /** It is the rounded product with the load factor. */
  lemma {:induction false} UpperBoundIsRounded(n: nat)
    ensures UpperBound(n) == (n as real * 0.77 + 0.5).Floor
  {
    var u := UpperBound(n);
    assert 100 * u <= 77 * n + 50 < 100 * u + 100;
    assert (u as real) * 100.0 <= (n as real) * 77.0 + 50.0 < (u as real) * 100.0 + 100.0 by {
      assert (100 * u) as real == 100.0 * u as real;
      assert (77 * n + 50) as real == 77.0 * n as real + 50.0;
    }
  }

  const MAX_BUCKETS := 0x8000_0000

  /** `kroundup32` on 32 bits: the smallest power of two that is at least `x`, and 0 for 0 or when that
      power does not fit (the bit smearing itself is Bits.RoundUp32, see Bits.RoundUp32IsRoundUp). */
  function RoundUp(x: nat): nat
  {
    if x == 0 || x > MAX_BUCKETS then 0 else Doubled(1, x)
  }

  function Doubled(p: nat, x: nat): (r: nat)
    requires p > 0
    ensures r >= x && r >= p && (r == p || r < 2 * x)
    decreases x - p
  {
    if p >= x then p else Doubled(2 * p, x)
  }

  lemma {:induction false} DoubledIsPow2(p: nat, x: nat)
    requires IsPow2(p) && p > 0
    ensures IsPow2(Doubled(p, x))
    decreases x - p
  {
    if p < x {
      var k: nat :| p == Pow2(k);
      assert 2 * p == Pow2(k + 1);
      DoubledIsPow2(2 * p, x);
    }
  }

  function NewBuckets(requested: nat): nat {
    var r := RoundUp(requested);
    if r < 4 then 4 else r
  }

  lemma {:induction false} NewBucketsIsPow2(requested: nat)
    ensures IsPow2(NewBuckets(requested)) && NewBuckets(requested) >= 4
    ensures requested <= MAX_BUCKETS ==> NewBuckets(requested) >= requested
    ensures NewBuckets(requested) <= MAX_BUCKETS
    ensures UpperBound(NewBuckets(requested)) < NewBuckets(requested)
  {
    assert 1 == Pow2(0);
    assert 4 == Pow2(2);
    if 0 < requested <= MAX_BUCKETS {
      DoubledIsPow2(1, requested);
      MaxBucketsIsPow2();
      DoubledWithin(1, requested, MAX_BUCKETS);
    }
  }

  /** No smaller power of two will do: the size is 4, or less than twice what was asked for. */
  lemma {:induction false} NewBucketsIsLeast(requested: nat)
    ensures NewBuckets(requested) == 4 || NewBuckets(requested) < 2 * requested
    ensures requested > MAX_BUCKETS ==> NewBuckets(requested) == 4
  {
  }

  lemma {:induction false} DoubledWithin(p: nat, x: nat, top: nat)
    requires 0 < p <= top && x <= top && IsPow2(p) && IsPow2(top)
    ensures Doubled(p, x) <= top
    decreases x - p
  {
    if p < x {
      var a: nat :| p == Pow2(a);
      var b: nat :| top == Pow2(b);
      Pow2Between(a, b);
      assert 2 * p == Pow2(a + 1);
      DoubledWithin(2 * p, x, top);
    }
  }

  lemma {:induction false} MaxBucketsIsPow2()
    ensures IsPow2(MAX_BUCKETS)
  {
    assert Pow2(8) == 0x100;
    assert Pow2(16) == 0x1_0000;
    assert Pow2(24) == 0x100_0000;
    assert Pow2(31) == MAX_BUCKETS;
  }

  /** The two sizes `kh_put` asks for: one less keeps the size, one more doubles it. */
  lemma {:induction false} NextSizes(n: nat)
    requires n == 0 || (IsPow2(n) && 4 <= n < MAX_BUCKETS)
    ensures n > 0 ==> NewBuckets(n - 1) == n
    ensures NewBuckets(n + 1) == if n == 0 then 4 else 2 * n
  {
    NewBucketsIsPow2(n + 1);
    if n > 0 {
      NewBucketsIsPow2(n - 1);
      MaxBucketsIsPow2();
      DoubleFits(n);
      hide NewBuckets, IsPow2;
      Pow2Within(n, NewBuckets(n - 1));
      Pow2Within(2 * n, NewBuckets(n + 1));
    }
  }

  lemma {:induction false} DoubleFits(n: nat)
    requires IsPow2(n) && 4 <= n < MAX_BUCKETS
    ensures IsPow2(2 * n) && 2 * n <= MAX_BUCKETS
    ensures NewBuckets(n - 1) < 2 * n && NewBuckets(n + 1) < 4 * n
  {
    MaxBucketsIsPow2();
    var k: nat :| n == Pow2(k);
    var c: nat :| MAX_BUCKETS == Pow2(c);
    Pow2Between(k, c);
    assert 2 * n == Pow2(k + 1);
  }

  /** Powers of two within a factor of two of each other are equal. */
  lemma {:induction false} Pow2Within(n: nat, m: nat)
    requires IsPow2(n) && IsPow2(m) && n < 2 * m && m < 2 * n
    ensures n == m
  {
    var k: nat :| n == Pow2(k);
    var l: nat :| m == Pow2(l);
    Pow2Between(k, l);
  }

  /** No empty bucket comes before step `s` on the probe of hash `h`. */
  ghost predicate ProbePath(fs: seq<Flag>, h: nat, s: nat)
    requires |fs| > 0
  {
    forall t: nat :: t < s ==> !fs[Probe(|fs|, h, t)].empty
  }

  /** The live buckets hold exactly the keys of `at`, key `k` at step `at[k]` of its own probe,
      and the probe reaches it without meeting an empty bucket. */
  ghost predicate Layout<K(!new)>(fs: seq<Flag>, ks: seq<K>, hash: K -> nat, at: map<K, nat>)
  {
    && |fs| <= |ks|
    && (|fs| == 0 ==> at == map[])
    && (forall k :: k in at ==>
          && 0 < |fs| && at[k] < |fs|
          && Live(fs[Probe(|fs|, hash(k), at[k])])
          && ks[Probe(|fs|, hash(k), at[k])] == k
          && ProbePath(fs, hash(k), at[k]))
    && (forall i :: 0 <= i < |fs| && Live(fs[i]) ==> ks[i] in at && Probe(|fs|, hash(ks[i]), at[ks[i]]) == i)
  }

  ghost function ValueMap<K(!new), V>(fs: seq<Flag>, ks: seq<K>, vs: seq<V>, hash: K -> nat, at: map<K, nat>): map<K, V>
    requires Layout(fs, ks, hash, at) && |fs| <= |vs|
  {
    map k | k in at :: vs[Probe(|fs|, hash(k), at[k])]
  }

  /** An unoccupied bucket exists when the count of occupied ones is below the table size, and every probe meets it. */
  lemma {:induction false} ProbeMeetsEmpty(fs: seq<Flag>, h: nat)
    requires IsPow2(|fs|) && Count(Occupied, fs) < |fs|
    ensures exists s: nat :: s < |fs| && fs[Probe(|fs|, h, s)].empty
  {
    if forall i :: 0 <= i < |fs| ==> Occupied(fs[i]) {
      CountAll(Occupied, fs);
    }
    var i :| 0 <= i < |fs| && fs[i].empty;
    ProbeVisitsEveryBucket(|fs|, h, i);
  }

  /** None of the first `m` probe positions of `k` is a live bucket holding `k`. */
  ghost predicate Missed<K(!new)>(fs: seq<Flag>, ks: seq<K>, h: nat, k: K, m: nat)
    requires 0 < |fs| <= |ks|
  {
    forall t: nat :: t < m ==> !(Live(fs[Probe(|fs|, h, t)]) && ks[Probe(|fs|, h, t)] == k)
  }

  /** If the first `n` probe positions all fail to hold `k`, the table does not hold it. */
  lemma {:induction false} MissAfterFullCycle<K(!new)>(fs: seq<Flag>, ks: seq<K>, hash: K -> nat, at: map<K, nat>,
      k: K, steps: nat)
    requires Layout(fs, ks, hash, at) && |fs| > 0
    requires Missed(fs, ks, hash(k), k, steps)
    requires steps >= |fs| || fs[Probe(|fs|, hash(k), steps)].empty
    ensures k !in at
  {
  }

  lemma {:induction false} LiveIsFound<K(!new)>(fs: seq<Flag>, ks: seq<K>, hash: K -> nat, at: map<K, nat>, i: nat)
    requires Layout(fs, ks, hash, at) && i < |fs| && Live(fs[i])
    ensures ks[i] in at && Probe(|fs|, hash(ks[i]), at[ks[i]]) == i
  {
  }

  lemma {:induction false} KeyHasBucket<K(!new)>(fs: seq<Flag>, ks: seq<K>, hash: K -> nat, at: map<K, nat>, k: K)
    requires Layout(fs, ks, hash, at) && k in at
    ensures exists x :: 0 <= x < |fs| && Live(fs[x]) && ks[x] == k
  {
    var x := Probe(|fs|, hash(k), at[k]);
    assert Live(fs[x]) && ks[x] == k;
  }

  /** Filling an empty or deleted bucket on the probe of a new key. */
  lemma {:induction false} Fill<K(!new)>(fs: seq<Flag>, ks: seq<K>, hash: K -> nat, at: map<K, nat>, k: K, s: nat)
    requires Layout(fs, ks, hash, at) && 0 < |fs| && s < |fs|
    requires k !in at && ProbePath(fs, hash(k), s)
    requires !Live(fs[Probe(|fs|, hash(k), s)])
    ensures var i := Probe(|fs|, hash(k), s);
            Layout(fs[i := LIVE_FLAG], ks[i := k], hash, at[k := s])
  {
    var i := Probe(|fs|, hash(k), s);
    var fs', ks', at' := fs[i := LIVE_FLAG], ks[i := k], at[k := s];
    forall q | q in at'
      ensures at'[q] < |fs'|
      ensures Live(fs'[Probe(|fs|, hash(q), at'[q])]) && ks'[Probe(|fs|, hash(q), at'[q])] == q
      ensures ProbePath(fs', hash(q), at'[q])
    {
      assert ProbePath(fs, hash(q), at'[q]);
    }
  }

  /** Marking a live bucket deleted takes its key out and breaks no probe path. */
  lemma {:induction false} Tombstone<K(!new)>(fs: seq<Flag>, ks: seq<K>, hash: K -> nat, at: map<K, nat>, i: nat)
    requires Layout(fs, ks, hash, at) && i < |fs| && Live(fs[i])
    ensures Layout(fs[i := Flag(false, true)], ks, hash, at - {ks[i]})
  {
    var fs', at' := fs[i := Flag(false, true)], at - {ks[i]};
    forall q | q in at'
      ensures Live(fs'[Probe(|fs|, hash(q), at'[q])]) && ProbePath(fs', hash(q), at'[q])
    {
      assert ProbePath(fs, hash(q), at[q]);
    }
  }

  /** Only the first `|fs|` keys and values matter. */
  lemma {:induction false} LayoutPrefix<K(!new), V>(fs: seq<Flag>, ks: seq<K>, ks': seq<K>, vs: seq<V>, vs': seq<V>,
      hash: K -> nat, at: map<K, nat>)
    requires Layout(fs, ks, hash, at) && |fs| <= |vs|
    requires |fs| <= |ks'| && ks'[..|fs|] == ks[..|fs|]
    requires |fs| <= |vs'| && vs'[..|fs|] == vs[..|fs|]
    ensures Layout(fs, ks', hash, at) && ValueMap(fs, ks', vs', hash, at) == ValueMap(fs, ks, vs, hash, at)
  {
    forall i | 0 <= i < |fs| ensures ks'[i] == ks[i] && vs'[i] == vs[i] {
      assert ks'[i] == ks'[..|fs|][i] && vs'[i] == vs'[..|fs|][i];
    }
  }

  lemma {:induction false} SizeOfValueMap<K(!new), V>(fs: seq<Flag>, ks: seq<K>, vs: seq<V>, hash: K -> nat,
      at: map<K, nat>)
    requires Layout(fs, ks, hash, at) && |fs| <= |vs|
    ensures ValueMap(fs, ks, vs, hash, at).Keys == at.Keys && |ValueMap(fs, ks, vs, hash, at)| == |at|
  {
    assert ValueMap(fs, ks, vs, hash, at).Keys == at.Keys;
  }

  lemma {:induction false} PathPrefix(fs: seq<Flag>, h: nat, s: nat, t: nat)
    requires 0 < |fs| && ProbePath(fs, h, s) && t <= s
    ensures ProbePath(fs, h, t)
  {
  }

  lemma {:induction false} ValueAt<K(!new), V>(fs: seq<Flag>, ks: seq<K>, vs: seq<V>, hash: K -> nat, at: map<K, nat>,
      i: nat, v: V)
    requires Layout(fs, ks, hash, at) && |fs| <= |vs| && i < |fs| && Live(fs[i])
    ensures ks[i] in at && ks[i] in ValueMap(fs, ks, vs, hash, at) && ValueMap(fs, ks, vs, hash, at)[ks[i]] == vs[i]
    ensures ValueMap(fs, ks, vs[i := v], hash, at) == ValueMap(fs, ks, vs, hash, at)[ks[i] := v]
  {
    forall k | k in at && k != ks[i] ensures Probe(|fs|, hash(k), at[k]) != i {
    }
  }

  /** What Fill does to the map. */
  lemma {:induction false} FillValue<K(!new), V>(fs: seq<Flag>, ks: seq<K>, vs: seq<V>, hash: K -> nat,
      at: map<K, nat>, k: K, s: nat)
    requires Layout(fs, ks, hash, at) && 0 < |fs| <= |vs| && s < |fs|
    requires k !in at && ProbePath(fs, hash(k), s)
    requires !Live(fs[Probe(|fs|, hash(k), s)])
    ensures var i := Probe(|fs|, hash(k), s);
            && Layout(fs[i := LIVE_FLAG], ks[i := k], hash, at[k := s])
            && ValueMap(fs[i := LIVE_FLAG], ks[i := k], vs, hash, at[k := s]) ==
                ValueMap(fs, ks, vs, hash, at)[k := vs[i]]
  {
    Fill(fs, ks, hash, at, k, s);
  }

  /** What Tombstone does to the map. */
  lemma {:induction false} TombstoneValue<K(!new), V>(fs: seq<Flag>, ks: seq<K>, vs: seq<V>, hash: K -> nat,
      at: map<K, nat>, i: nat)
    requires Layout(fs, ks, hash, at) && |fs| <= |vs| && i < |fs| && Live(fs[i])
    ensures Layout(fs[i := Flag(false, true)], ks, hash, at - {ks[i]})
    ensures ValueMap(fs[i := Flag(false, true)], ks, vs, hash, at - {ks[i]}) == ValueMap(fs, ks, vs, hash, at) - {ks[i]}
    ensures i < |ks| && ks[i] in at
  {
    Tombstone(fs, ks, hash, at, i);
  }

  /** The invariant of a table between operations: sizes are powers of two, `size` counts the live buckets and
      the keys, `n_occupied` counts live and deleted ones, and some bucket is always empty. */
  ghost predicate Consistent<K(!new)>(size: nat, nOccupied: nat, upper: nat, fs: seq<Flag>, ks: seq<K>,
                                      hash: K -> nat, at: map<K, nat>)
  {
    && |fs| <= MAX_BUCKETS
    && (if |fs| == 0 then upper == 0 else IsPow2(|fs|) && |fs| >= 4 && upper == UpperBound(|fs|) < |fs|)
    && Layout(fs, ks, hash, at)
    && (forall i :: 0 <= i < |fs| ==> !(fs[i].empty && fs[i].del))
    && size == Count(Live, fs) == |at|
    && nOccupied == Count(Occupied, fs) <= upper
  }

  lemma {:induction false} ConsistentFacts<K(!new)>(size: nat, nOccupied: nat, upper: nat, fs: seq<Flag>, ks: seq<K>,
      hash: K -> nat, at: map<K, nat>)
    requires Consistent(size, nOccupied, upper, fs, ks, hash, at)
    ensures Layout(fs, ks, hash, at) && |fs| <= MAX_BUCKETS && size <= nOccupied <= upper && |at| == size
    ensures 0 < |fs| ==> IsPow2(|fs|) && upper == UpperBound(|fs|) < |fs| && |fs| >= 4
    ensures |fs| == 0 ==> upper == 0
    ensures Count(Occupied, fs) == nOccupied
    ensures forall i :: 0 <= i < |fs| ==> fs[i] == EMPTY_FLAG || fs[i] == LIVE_FLAG || fs[i] == Flag(false, true)
  {
    CountMonotone(Live, Occupied, fs);
  }

  /** The sizes alone. */
  lemma {:induction false} ConsistentSizes<K(!new)>(size: nat, nOccupied: nat, upper: nat, fs: seq<Flag>, ks: seq<K>,
      hash: K -> nat, at: map<K, nat>)
    requires Consistent(size, nOccupied, upper, fs, ks, hash, at)
    ensures size <= nOccupied <= upper
    ensures if |fs| == 0 then upper == 0 else IsPow2(|fs|) && 4 <= |fs| && upper == UpperBound(|fs|)
  {
    ConsistentFacts(size, nOccupied, upper, fs, ks, hash, at);
  }

  /** A table of empty buckets holds nothing. */
  lemma {:induction false} ClearedConsistent<K(!new), V>(size: nat, nOccupied: nat, upper: nat, fs: seq<Flag>,
      cleared: seq<Flag>, ks: seq<K>, vs: seq<V>, hash: K -> nat, at: map<K, nat>)
    requires Consistent(size, nOccupied, upper, fs, ks, hash, at) && |fs| <= |vs|
    requires |cleared| == |fs| && forall i :: 0 <= i < |fs| ==> cleared[i] == EMPTY_FLAG
    ensures Consistent(0, 0, upper, cleared, ks, hash, map[])
    ensures Layout(cleared, ks, hash, map[]) && ValueMap(cleared, ks, vs, hash, map[]) == map[]
  {
    CountNone(Live, cleared);
    CountNone(Occupied, cleared);
  }

  /** Occupying the bucket found for a new key. */
  lemma {:induction false} OccupyKeepsConsistent<K(!new), V>(size: nat, nOccupied: nat, upper: nat, fs: seq<Flag>,
      ks: seq<K>, vs: seq<V>, hash: K -> nat, at: map<K, nat>, k: K, s: nat, i: nat)
    requires Consistent(size, nOccupied, upper, fs, ks, hash, at) && |fs| <= |vs| && nOccupied < upper
    requires k !in at && s < |fs| && i == Probe(|fs|, hash(k), s) && ProbePath(fs, hash(k), s) && !Live(fs[i])
    ensures Consistent(size + 1, if fs[i].empty then nOccupied + 1 else nOccupied, upper,
                       fs[i := LIVE_FLAG], ks[i := k], hash, at[k := s])
    ensures Layout(fs, ks, hash, at) && Layout(fs[i := LIVE_FLAG], ks[i := k], hash, at[k := s])
    ensures ValueMap(fs[i := LIVE_FLAG], ks[i := k], vs, hash, at[k := s]) == ValueMap(fs, ks, vs, hash, at)[k := vs[i]]
    ensures k !in ValueMap(fs, ks, vs, hash, at)
  {
    hide Layout, Probe, ProbePath, ValueMap, Count, IsPow2, UpperBound;
    FillValue(fs, ks, vs, hash, at, k, s);
    CountUpdate(Live, fs, i, LIVE_FLAG);
    CountUpdate(Occupied, fs, i, LIVE_FLAG);
    SizeOfValueMap(fs, ks, vs, hash, at);
    OneKeyMore(at, k, s);
  }

  lemma {:induction false} OneKeyMore<K>(at: map<K, nat>, k: K, s: nat)
    requires k !in at
    ensures |at[k := s]| == |at| + 1
  {
  }

  lemma {:induction false} DeleteKeepsConsistent<K(!new), V>(size: nat, nOccupied: nat, upper: nat, fs: seq<Flag>,
      ks: seq<K>, vs: seq<V>, hash: K -> nat, at: map<K, nat>, i: nat)
    requires Consistent(size, nOccupied, upper, fs, ks, hash, at) && |fs| <= |vs| && i < |fs| && Live(fs[i])
    ensures size > 0
    ensures Consistent(size - 1, nOccupied, upper, fs[i := Flag(false, true)], ks, hash, at - {ks[i]})
    ensures Layout(fs, ks, hash, at) && Layout(fs[i := Flag(false, true)], ks, hash, at - {ks[i]})
    ensures ValueMap(fs[i := Flag(false, true)], ks, vs, hash, at - {ks[i]}) == ValueMap(fs, ks, vs, hash, at) - {ks[i]}
  {
    hide Layout, Probe, ProbePath, ValueMap, Count, IsPow2, UpperBound;
    TombstoneValue(fs, ks, vs, hash, at, i);
    CountUpdate(Live, fs, i, Flag(false, true));
    CountUpdate(Occupied, fs, i, Flag(false, true));
    OneKeyLess(at, ks[i]);
  }

  lemma {:induction false} OneKeyLess<K>(at: map<K, nat>, k: K)
    requires k in at
    ensures |at - {k}| == |at| - 1
  {
    assert (at - {k}).Keys == at.Keys - {k};
  }

  /** A freshly rehashed table has no tombstones: `n_occupied` is `size`. */
  lemma {:induction false} RehashedConsistent<K(!new)>(size: nat, fs: seq<Flag>, ks: seq<K>, hash: K -> nat,
      at: map<K, nat>)
    requires IsPow2(|fs|) && 4 <= |fs| <= MAX_BUCKETS && size < UpperBound(|fs|) < |fs|
    requires Layout(fs, ks, hash, at) && Count(Live, fs) == Count(Occupied, fs) == |at| == size
    requires forall i :: 0 <= i < |fs| ==> !fs[i].del
    ensures Consistent(size, size, UpperBound(|fs|), fs, ks, hash, at)
  {
  }
}
