/** The khash table itself, and the in-place rehash. */
module KHash {
  import opened Arithmetic
  import opened Probing
  import opened Counting
  import opened Buckets
  import opened Bits

  /** Old entries still waiting to be moved: the live buckets of the old flags, key `k` in bucket `pend[k]`. */
  ghost predicate Pending<K(!new)>(fs: seq<Flag>, ks: seq<K>, pend: map<K, nat>)
  {
    && |fs| <= |ks|
    && (forall k :: k in pend ==> pend[k] < |fs| && Live(fs[pend[k]]) && ks[pend[k]] == k)
    && (forall i :: 0 <= i < |fs| && Live(fs[i]) ==> ks[i] in pend && pend[ks[i]] == i)
  }

  /** The values that belong to the placed keys and to the waiting ones. */
  ghost predicate Values<K(!new), V>(n: nat, vs: seq<V>, hash: K -> nat, pend: map<K, nat>, at: map<K, nat>,
      c: map<K, V>)
  {
    && pend.Keys <= c.Keys && at.Keys <= c.Keys
    && (forall k :: k in pend ==> pend[k] < |vs| && vs[pend[k]] == c[k])
    && (forall k :: k in at ==> 0 < n && Probe(n, hash(k), at[k]) < |vs| && vs[Probe(n, hash(k), at[k])] == c[k])
  }

  /** No bucket is used by both layouts. */
  ghost predicate Apart(oldF: seq<Flag>, newF: seq<Flag>) {
    && (forall i :: 0 <= i < |newF| ==> !newF[i].del)
    && (forall i :: 0 <= i < |oldF| && i < |newF| && Live(oldF[i]) ==> newF[i].empty)
  }

  /** The state between two kick-outs: entries of the old layout (`oldF`, `pend`) and of the new one
      (`newF`, `at`) share the same key and value arrays without overlapping. */
  ghost predicate Moving<K(!new), V>(oldF: seq<Flag>, newF: seq<Flag>, ks: seq<K>, vs: seq<V>, hash: K -> nat,
                                     pend: map<K, nat>, at: map<K, nat>, c: map<K, V>)
  {
    && |oldF| <= |ks| && |oldF| <= |vs|
    && |newF| <= |ks| && |newF| <= |vs|
    && Layout(newF, ks, hash, at)
    && Pending(oldF, ks, pend)
    && pend.Keys !! at.Keys
    && Apart(oldF, newF)
    && Values(|newF|, vs, hash, pend, at, c)
    && Count(Occupied, newF) == |at|
  }

  /** Picking up the entry of old bucket `j`. */
  lemma {:induction false} PickUp<K(!new), V>(oldF: seq<Flag>, newF: seq<Flag>, ks: seq<K>, vs: seq<V>, hash: K -> nat,
                           pend: map<K, nat>, at: map<K, nat>, c: map<K, V>, j: nat)
    requires Moving(oldF, newF, ks, vs, hash, pend, at, c)
    requires j < |oldF| && Live(oldF[j])
    ensures j < |ks| && j < |vs| && ks[j] in pend && ks[j] in c && vs[j] == c[ks[j]]
    ensures Moving(oldF[j := Flag(false, true)], newF, ks, vs, hash, pend - {ks[j]}, at, c)
  {
    hide Layout, Probe, Count, Pending, Values;
    PendingPicked(oldF, ks, pend, j);
    ValuesPicked(|newF|, vs, hash, pend, at, c, ks[j]);
  }

  lemma {:induction false} PendingPicked<K(!new)>(fs: seq<Flag>, ks: seq<K>, pend: map<K, nat>, j: nat)
    requires Pending(fs, ks, pend) && j < |fs| && Live(fs[j])
    ensures ks[j] in pend && pend[ks[j]] == j
    ensures Pending(fs[j := Flag(false, true)], ks, pend - {ks[j]})
  {
  }

  lemma {:induction false} ValuesPicked<K(!new), V>(n: nat, vs: seq<V>, hash: K -> nat, pend: map<K, nat>,
      at: map<K, nat>, c: map<K, V>, k: K)
    requires Values(n, vs, hash, pend, at, c) && k in pend
    ensures k in c && pend[k] < |vs| && vs[pend[k]] == c[k]
    ensures Values(n, vs, hash, pend - {k}, at, c)
  {
  }

  /** Overwriting a bucket that holds no waiting entry keeps the waiting ones. */
  lemma {:induction false} PendingKept<K(!new)>(fs: seq<Flag>, ks: seq<K>, pend: map<K, nat>, i: nat, k: K)
    requires Pending(fs, ks, pend) && i < |ks| && (i < |fs| ==> !Live(fs[i]))
    ensures Pending(fs, ks[i := k], pend)
    ensures forall q :: q in pend ==> pend[q] != i
  {
  }

  lemma {:induction false} PlacedElsewhere<K(!new)>(fs: seq<Flag>, ks: seq<K>, hash: K -> nat, at: map<K, nat>, i: nat)
    requires Layout(fs, ks, hash, at) && i < |fs| && fs[i].empty
    ensures forall q :: q in at ==> Probe(|fs|, hash(q), at[q]) != i
  {
  }

  lemma {:induction false} ValuesKept<K(!new), V>(n: nat, vs: seq<V>, hash: K -> nat, pend: map<K, nat>,
      at: map<K, nat>, c: map<K, V>, k: K, s: nat, i: nat)
    requires Values(n, vs, hash, pend, at, c) && k in c && 0 < n && i == Probe(n, hash(k), s) < |vs|
    requires forall q :: q in pend ==> pend[q] != i
    requires forall q :: q in at ==> Probe(n, hash(q), at[q]) != i
    ensures Values(n, vs[i := c[k]], hash, pend, at[k := s], c)
  {
  }

  /** Writing an entry in hand into an empty new bucket that holds no waiting old entry. */
  lemma {:induction false} Settle<K(!new), V>(oldF: seq<Flag>, newF: seq<Flag>, ks: seq<K>, vs: seq<V>, hash: K -> nat,
                           pend: map<K, nat>, at: map<K, nat>, c: map<K, V>, k: K, s: nat)
    requires Moving(oldF, newF, ks, vs, hash, pend, at, c)
    requires k in c && k !in pend && k !in at
    requires 0 < |newF| && s < |newF| && ProbePath(newF, hash(k), s) && newF[Probe(|newF|, hash(k), s)].empty
    requires var i := Probe(|newF|, hash(k), s); i < |oldF| ==> !Live(oldF[i])
    ensures var i := Probe(|newF|, hash(k), s);
            Moving(oldF, newF[i := LIVE_FLAG], ks[i := k], vs[i := c[k]], hash, pend, at[k := s], c)
  {
    hide Layout, Pending, Values, ProbePath, Probe;
    var i := Probe(|newF|, hash(k), s);
    Fill(newF, ks, hash, at, k, s);
    CountUpdate(Occupied, newF, i, LIVE_FLAG);
    PendingKept(oldF, ks, pend, i, k);
    PlacedElsewhere(newF, ks, hash, at, i);
    ValuesKept(|newF|, vs, hash, pend, at, c, k, s, i);
  }

  lemma {:induction false} PathBeforeEmpty(fs: seq<Flag>, h: nat, s: nat)
    requires |fs| > 0
    ensures ProbePath(fs, h, 0)
    ensures ProbePath(fs, h, s) && !fs[Probe(|fs|, h, s)].empty ==> ProbePath(fs, h, s + 1)
    ensures forall e: nat :: ProbePath(fs, h, s) && fs[Probe(|fs|, h, e)].empty ==> s <= e
  {
  }

  /** The probe loop of the rehash, which has no wrap-around test: it stops because some bucket is empty. */
  method FindEmpty(fs: PackedFlags, h: nat) returns (i: nat, ghost s: nat)
    requires fs.Fits() && IsPow2(fs.Length) && Count(Occupied, fs.View()) < fs.Length
    ensures s < fs.Length && i == Probe(fs.Length, h, s) && fs.View()[i].empty
    ensures ProbePath(fs.View(), h, s)
  {
    hide Probe, ProbePath, Count, Mask,
           PackedFlags.View, PackedFlags.IsEmpty, PackedFlags.IsDel, PackedFlags.IsEither;
    var n := fs.Length;
    ProbeMeetsEmpty(fs.View(), h);
    ghost var e: nat :| e < n && fs.View()[Probe(n, h, e)].empty;
    ProbeUnfold(n, h, 0);
    PathBeforeEmpty(fs.View(), h, 0);
    i := Mask(h, n);
    var step := 0;
    while !fs.IsEmpty(i)
      invariant i == Probe(n, h, step) && i < n && step <= e
      invariant ProbePath(fs.View(), h, step)
      decreases e - step
    {
      PathBeforeEmpty(fs.View(), h, step);
      PathBeforeEmpty(fs.View(), h, step + 1);
      ProbeUnfold(n, h, step);
      step := step + 1;
      i := Mask(i + step, n);
    }
    s := step;
  }

  /** Every key of `c` is either waiting or placed. */
  ghost predicate AllAccounted<K, V>(pend: map<K, nat>, at: map<K, nat>, c: map<K, V>) {
    pend.Keys + at.Keys == c.Keys
  }

  /** Every key of `c` is waiting, placed, or `k`, which is neither. */
  ghost predicate InHand<K, V>(pend: map<K, nat>, at: map<K, nat>, c: map<K, V>, k: K) {
    k in c && k !in pend && k !in at && pend.Keys + at.Keys + {k} == c.Keys
  }

  lemma {:induction false} FewerPlaced<K, V>(pend: map<K, nat>, at: map<K, nat>, c: map<K, V>, k: K)
    requires InHand(pend, at, c, k)
    ensures |at| < |c| && k in c && k !in pend && k !in at
  {
    SubsetSize(at.Keys + {k}, c.Keys);
  }

  lemma {:induction false} HandPicked<K, V>(pend: map<K, nat>, at: map<K, nat>, c: map<K, V>, k: K)
    requires AllAccounted(pend, at, c) && pend.Keys !! at.Keys && k in pend
    ensures InHand(pend - {k}, at, c, k)
  {
  }

  lemma {:induction false} HandPlaced<K, V>(pend: map<K, nat>, at: map<K, nat>, c: map<K, V>, k: K, s: nat)
    requires InHand(pend, at, c, k)
    ensures AllAccounted(pend, at[k := s], c)
  {
    assert at[k := s].Keys == at.Keys + {k};
  }

  lemma {:induction false} StartMoving<K(!new), V>(oldF: seq<Flag>, newF: seq<Flag>, ks: seq<K>, vs: seq<V>,
      hash: K -> nat, at0: map<K, nat>)
    returns (pend: map<K, nat>)
    requires |oldF| <= |ks| && |oldF| <= |vs| && |newF| <= |ks| && |newF| <= |vs| && Layout(oldF, ks, hash, at0)
    requires forall i :: 0 <= i < |newF| ==> newF[i] == EMPTY_FLAG
    ensures Moving(oldF, newF, ks, vs, hash, pend, map[], ValueMap(oldF, ks, vs, hash, at0))
    ensures AllAccounted(pend, map[], ValueMap(oldF, ks, vs, hash, at0))
  {
    hide Probe, ProbePath, Count, Layout, Pending, Values, Apart;
    pend := AllPending(oldF, ks, vs, hash, at0, |newF|);
    CountNone(Occupied, newF);
    NothingPlaced(newF, ks, hash);
    NothingShared(oldF, newF);
    SizeOfValueMap(oldF, ks, vs, hash, at0);
  }

  lemma {:induction false} NothingPlaced<K(!new)>(newF: seq<Flag>, ks: seq<K>, hash: K -> nat)
    requires |newF| <= |ks| && forall i :: 0 <= i < |newF| ==> newF[i] == EMPTY_FLAG
    ensures Layout(newF, ks, hash, map[])
  {
  }

  lemma {:induction false} NothingShared(oldF: seq<Flag>, newF: seq<Flag>)
    requires forall i :: 0 <= i < |newF| ==> newF[i] == EMPTY_FLAG
    ensures Apart(oldF, newF)
  {
  }

  /** Before the rehash every entry is waiting, in its own bucket. */
  lemma {:induction false} AllPending<K(!new), V>(fs: seq<Flag>, ks: seq<K>, vs: seq<V>, hash: K -> nat,
      at: map<K, nat>, n: nat)
    returns (pend: map<K, nat>)
    requires Layout(fs, ks, hash, at) && |fs| <= |vs|
    ensures pend.Keys == at.Keys && Pending(fs, ks, pend)
    ensures Values(n, vs, hash, pend, map[], ValueMap(fs, ks, vs, hash, at))
  {
    hide ProbePath, Probe;
    pend := map k | k in at :: Probe(|fs|, hash(k), at[k]);
  }

  lemma {:induction false} DoneMoving<K(!new), V>(oldF: seq<Flag>, newF: seq<Flag>, ks: seq<K>, vs: seq<V>,
      hash: K -> nat, pend: map<K, nat>, at: map<K, nat>, c: map<K, V>)
    requires Moving(oldF, newF, ks, vs, hash, pend, at, c)
    requires AllAccounted(pend, at, c)
    requires NoneLiveBelow(oldF, |oldF|)
    ensures Layout(newF, ks, hash, at) && ValueMap(newF, ks, vs, hash, at) == c
    ensures Count(Live, newF) == Count(Occupied, newF) == |at| == |c|
    ensures forall i :: 0 <= i < |newF| ==> !newF[i].del
  {
    hide Layout, Probe, Count;
    NothingPending(oldF, ks, pend);
    CountMonotone(Live, Occupied, newF);
    CountMonotone(Occupied, Live, newF);
    assert pend.Keys + at.Keys == at.Keys;
    SizeOfValueMap(newF, ks, vs, hash, at);
    ValuesAreMap(newF, ks, vs, hash, at, c);
  }

  lemma {:induction false} NothingPending<K(!new)>(fs: seq<Flag>, ks: seq<K>, pend: map<K, nat>)
    requires Pending(fs, ks, pend) && NoneLiveBelow(fs, |fs|)
    ensures forall k :: k !in pend
  {
  }

  lemma {:induction false} ValuesAreMap<K(!new), V>(fs: seq<Flag>, ks: seq<K>, vs: seq<V>, hash: K -> nat,
      at: map<K, nat>, c: map<K, V>)
    requires Layout(fs, ks, hash, at) && |fs| <= |vs| && at.Keys == c.Keys && Values(|fs|, vs, hash, map[], at, c)
    ensures ValueMap(fs, ks, vs, hash, at) == c
  {
    hide Layout, Probe;
    SizeOfValueMap(fs, ks, vs, hash, at);
  }

  ghost predicate NoneLiveBelow(fs: seq<Flag>, j: nat) {
    forall i :: 0 <= i < |fs| && i < j ==> !Live(fs[i])
  }

  lemma {:induction false} NoneLiveBelowKept(fs: seq<Flag>, j: nat, i: nat)
    ensures NoneLiveBelow(fs, 0)
    ensures NoneLiveBelow(fs, j) && i < |fs| ==> NoneLiveBelow(fs[i := Flag(false, true)], j)
    ensures NoneLiveBelow(fs, j) && (j < |fs| ==> !Live(fs[j])) ==> NoneLiveBelow(fs, j + 1)
  {
  }

  lemma {:induction false} MovingDisjoint<K(!new), V>(oldF: seq<Flag>, newF: seq<Flag>, ks: seq<K>, vs: seq<V>,
      hash: K -> nat, pend: map<K, nat>, at: map<K, nat>, c: map<K, V>)
    requires Moving(oldF, newF, ks, vs, hash, pend, at, c)
    ensures pend.Keys !! at.Keys && Count(Occupied, newF) == |at|
  {
  }

  /** One kick-out: the entry in hand takes new bucket `i` and the entry waiting there is taken in hand. */
  lemma {:induction false} KickOut<K(!new), V>(oldF: seq<Flag>, newF: seq<Flag>, ks: seq<K>, vs: seq<V>, hash: K -> nat,
                            pend: map<K, nat>, at: map<K, nat>, c: map<K, V>, k: K, s: nat, i: nat)
    requires Moving(oldF, newF, ks, vs, hash, pend, at, c)
    requires InHand(pend, at, c, k)
    requires i < |newF| && s < |newF| && ProbePath(newF, hash(k), s) && newF[i].empty
    requires i == Probe(|newF|, hash(k), s) && i < |oldF| && Live(oldF[i])
    ensures ks[i] in pend && ks[i] in c && vs[i] == c[ks[i]]
    ensures var pend', at' := pend - {ks[i]}, at[k := s];
            && Moving(oldF[i := Flag(false, true)], newF[i := LIVE_FLAG], ks[i := k], vs[i := c[k]],
                      hash, pend', at', c)
            && InHand(pend', at', c, ks[i]) && |pend'| < |pend|
  {
    hide Layout, Pending, Values, ProbePath, Probe, Moving, InHand, AllAccounted;
    PickUp(oldF, newF, ks, vs, hash, pend, at, c, i);
    FewerPlaced(pend, at, c, k);
    HandPlaced(pend, at, c, k, s);
    Settle(oldF[i := Flag(false, true)], newF, ks, vs, hash, pend - {ks[i]}, at, c, k, s);
    MovingDisjoint(oldF, newF, ks, vs, hash, pend, at, c);
    HandPicked(pend, at[k := s], c, ks[i]);
    assert (pend - {ks[i]}).Keys == pend.Keys - {ks[i]};
  }

  /** The kick-out process: carries the entry in hand to its new bucket, and whatever it displaces to
      theirs, until an entry lands in a bucket that holds none.  Every kick-out takes one waiting entry away. */
  method CarryOver<K(==, !new), V>(hash: K -> nat, oldF: PackedFlags, newF: PackedFlags, ks: array<K>, vs: array<V>,
      key0: K, val0: V, ghost j: nat, ghost pend0: map<K, nat>, ghost at0: map<K, nat>, ghost c: map<K, V>)
    returns (ghost pend: map<K, nat>, ghost at: map<K, nat>)
    requires oldF.Fits() && newF.Fits() && oldF.words != newF.words && ks as object != vs
    requires oldF.words as object != ks && oldF.words as object != vs
    requires newF.words as object != ks && newF.words as object != vs
    requires newF.Length <= ks.Length && newF.Length <= vs.Length && IsPow2(newF.Length) && |c| < newF.Length
    requires oldF.Length <= ks.Length && oldF.Length <= vs.Length
    requires Moving(oldF.View(), newF.View(), ks[..], vs[..], hash, pend0, at0, c)
    requires InHand(pend0, at0, c, key0) && val0 == c[key0] && NoneLiveBelow(oldF.View(), j)
    modifies oldF.words, newF.words, ks, vs
    ensures Moving(oldF.View(), newF.View(), ks[..], vs[..], hash, pend, at, c)
    ensures AllAccounted(pend, at, c) && NoneLiveBelow(oldF.View(), j)
  {
    hide Moving, NoneLiveBelow, InHand, AllAccounted, Count;
    var key, val, done := key0, val0, false;
    pend, at := pend0, at0;
    InHandIsIn(pend0, at0, c, key0);
    while !done
      invariant Moving(oldF.View(), newF.View(), ks[..], vs[..], hash, pend, at, c) && NoneLiveBelow(oldF.View(), j)
      invariant if done then AllAccounted(pend, at, c) else key in c && val == c[key] && InHand(pend, at, c, key)
      decreases |pend|, !done
    {
      key, val, done, pend, at := KickOnce(hash, oldF, newF, ks, vs, key, val, j, pend, at, c);
    }
  }

  lemma {:induction false} InHandIsIn<K, V>(pend: map<K, nat>, at: map<K, nat>, c: map<K, V>, k: K)
    requires InHand(pend, at, c, k)
    ensures k in c
  {
  }

  /** No bucket of the new layout is a tombstone. */
  lemma {:induction false} NotDeleted<K(!new), V>(oldF: seq<Flag>, newF: seq<Flag>, ks: seq<K>, vs: seq<V>,
      hash: K -> nat, pend: map<K, nat>, at: map<K, nat>, c: map<K, V>, i: nat)
    requires Moving(oldF, newF, ks, vs, hash, pend, at, c) && i < |newF|
    ensures !newF[i].del
  {
  }

  /** One turn of the kick-out process: the entry in hand is written, and either an entry waiting there is taken in
      hand instead, or the process is done. */
  method KickOnce<K(==, !new), V>(hash: K -> nat, oldF: PackedFlags, newF: PackedFlags, ks: array<K>, vs: array<V>,
      key: K, val: V, ghost j: nat, ghost pend: map<K, nat>, ghost at: map<K, nat>, ghost c: map<K, V>)
    returns (key': K, val': V, done: bool, ghost pend': map<K, nat>, ghost at': map<K, nat>)
    requires oldF.Fits() && newF.Fits() && oldF.words != newF.words && ks as object != vs
    requires oldF.words as object != ks && oldF.words as object != vs
    requires newF.words as object != ks && newF.words as object != vs
    requires newF.Length <= ks.Length && newF.Length <= vs.Length && IsPow2(newF.Length) && |c| < newF.Length
    requires oldF.Length <= ks.Length && oldF.Length <= vs.Length
    requires Moving(oldF.View(), newF.View(), ks[..], vs[..], hash, pend, at, c)
    requires InHand(pend, at, c, key) && key in c && val == c[key] && NoneLiveBelow(oldF.View(), j)
    modifies oldF.words, newF.words, ks, vs
    ensures Moving(oldF.View(), newF.View(), ks[..], vs[..], hash, pend', at', c) && NoneLiveBelow(oldF.View(), j)
    ensures if done then AllAccounted(pend', at', c) && pend' == pend
            else key' in c && val' == c[key'] && InHand(pend', at', c, key') && |pend'| < |pend|
  {
    hide Moving, Layout, Probe, ProbePath, Count, NoneLiveBelow, InHand, AllAccounted, IsPow2, Live;
    FewerPlaced(pend, at, c, key);
    MovingDisjoint(oldF.View(), newF.View(), ks[..], vs[..], hash, pend, at, c);
    var i, s := FindEmpty(newF, hash(key));
    NoneLiveBelowKept(oldF.View(), j, i);
    ghost var oF, nF, ks0, vs0 := oldF.View(), newF.View(), ks[..], vs[..];
    at' := at[key := s];
    done := i >= oldF.Length || oldF.IsEither(i);
    key', val' := ks[i], vs[i];
    assert ks0[i] == ks[i] && vs0[i] == vs[i];
    NotDeleted(oF, nF, ks0, vs0, hash, pend, at, c, i);
    if done {
      pend' := pend;
      Settle(oF, nF, ks0, vs0, hash, pend, at, c, key, s);
      HandPlaced(pend, at, c, key, s);
    } else {
      pend' := pend - {ks0[i]};
      KickOut(oF, nF, ks0, vs0, hash, pend, at, c, key, s, i);
      oldF.SetIsDelTrue(i);
    }
    newF.SetIsEmptyFalse(i);
    ks[i], vs[i] := key, val;
    assert oldF.View() == if done then oF else oF[i := Flag(false, true)];
    assert newF.View() == nF[i := LIVE_FLAG];
    assert ks[..] == ks0[i := key] && vs[..] == vs0[i := val];
  }

  /** Takes the entry of old bucket `j` in hand. */
  method TakeUp<K(==, !new), V>(hash: K -> nat, oldF: PackedFlags, newF: PackedFlags, ks: array<K>, vs: array<V>,
      j: nat, ghost pend: map<K, nat>, ghost at: map<K, nat>, ghost c: map<K, V>)
    returns (key: K, val: V, ghost pend': map<K, nat>)
    requires oldF.Fits() && oldF.words != newF.words && oldF.words as object != ks && oldF.words as object != vs
    requires oldF.Length <= ks.Length && oldF.Length <= vs.Length
    requires Moving(oldF.View(), newF.View(), ks[..], vs[..], hash, pend, at, c) && AllAccounted(pend, at, c)
    requires j < oldF.Length && Live(oldF.View()[j]) && NoneLiveBelow(oldF.View(), j)
    modifies oldF.words
    ensures Moving(oldF.View(), newF.View(), ks[..], vs[..], hash, pend', at, c)
    ensures InHand(pend', at, c, key) && key in c && val == c[key] && NoneLiveBelow(oldF.View(), j + 1)
  {
    hide Moving, NoneLiveBelow, InHand, AllAccounted, Count,
           PackedFlags.View, PackedFlags.IsEmpty, PackedFlags.IsDel, PackedFlags.IsEither;
    key, val := ks[j], vs[j];
    ghost var oF := oldF.View();
    PickUp(oF, newF.View(), ks[..], vs[..], hash, pend, at, c, j);
    MovingDisjoint(oF, newF.View(), ks[..], vs[..], hash, pend, at, c);
    HandPicked(pend, at, c, key);
    pend' := pend - {key};
    oldF.SetIsDelTrue(j);
    assert oldF.View() == oF[j := Flag(false, true)];
    NoneLiveBelowKept(oF, j, j);
    NoneLiveBelowKept(oldF.View(), j, j);
  }

  /** The in-place rehash: every old entry is carried to its bucket in the new layout, and no entry is
      lost, duplicated or given another value. */
  method Rehash<K(==, !new), V>(hash: K -> nat, oldF: PackedFlags, newF: PackedFlags, ks: array<K>, vs: array<V>,
                                ghost at0: map<K, nat>, ghost c: map<K, V>)
    returns (ghost at: map<K, nat>)
    requires oldF.Fits() && newF.Fits() && oldF.words != newF.words && ks as object != vs
    requires oldF.words as object != ks && oldF.words as object != vs
    requires newF.words as object != ks && newF.words as object != vs
    requires oldF.Length <= ks.Length && oldF.Length <= vs.Length
    requires newF.Length <= ks.Length && newF.Length <= vs.Length && IsPow2(newF.Length)
    requires Layout(oldF.View(), ks[..], hash, at0) && c == ValueMap(oldF.View(), ks[..], vs[..], hash, at0)
    requires forall i :: 0 <= i < newF.Length ==> newF.View()[i] == EMPTY_FLAG
    requires |c| < newF.Length
    modifies oldF.words, newF.words, ks, vs
    ensures Layout(newF.View(), ks[..], hash, at) && ValueMap(newF.View(), ks[..], vs[..], hash, at) == c
    ensures Count(Live, newF.View()) == Count(Occupied, newF.View()) == |at| == |c|
    ensures forall i :: 0 <= i < newF.Length ==> !newF.View()[i].del
  {
    hide Moving, Layout, ValueMap, Probe, ProbePath, Count, NoneLiveBelow, InHand, AllAccounted,
           PackedFlags.View, PackedFlags.IsEmpty, PackedFlags.IsDel, PackedFlags.IsEither;
    ghost var pend := StartMoving(oldF.View(), newF.View(), ks[..], vs[..], hash, at0);
    at := map[];
    var j := 0;
    NoneLiveBelowKept(oldF.View(), 0, 0);
    while j != oldF.Length
      invariant 0 <= j <= oldF.Length
      invariant Moving(oldF.View(), newF.View(), ks[..], vs[..], hash, pend, at, c)
      invariant AllAccounted(pend, at, c)
      invariant NoneLiveBelow(oldF.View(), j)
    {
      if !oldF.IsEither(j) {
        var key, val;
        key, val, pend := TakeUp(hash, oldF, newF, ks, vs, j, pend, at, c);
        pend, at := CarryOver(hash, oldF, newF, ks, vs, key, val, j + 1, pend, at, c);
      } else {
        NoneLiveBelowKept(oldF.View(), j, j);
      }
      j := j + 1;
    }
    DoneMoving(oldF.View(), newF.View(), ks[..], vs[..], hash, pend, at, c);
  }

  /** `realloc`: a block of the new length with the common prefix kept. */
  method Realloc<T(0)>(a: array<T>, n: nat) returns (b: array<T>)
    ensures fresh(b) && b.Length == n
    ensures forall i :: 0 <= i < n && i < a.Length ==> b[i] == a[i]
  {
    b := new T[n];
    forall i | 0 <= i < n && i < a.Length {
      b[i] := a[i];
    }
  }

  /** Where every search starts: some step `e` before the probe returns meets an empty bucket. */
  lemma {:induction false} SearchStart<K(!new)>(fs: seq<Flag>, ks: seq<K>, h: nat, key: K) returns (e: nat)
    requires 0 < |fs| <= |ks| && IsPow2(|fs|) && Count(Occupied, fs) < |fs|
    ensures e < |fs| && fs[Probe(|fs|, h, e)].empty
    ensures Probe(|fs|, h, 0) == Mask(h, |fs|) && Missed(fs, ks, h, key, 0) && ProbePath(fs, h, 0)
    ensures forall s: nat :: 1 <= s <= |fs| - 1 ==> Probe(|fs|, h, s) != Probe(|fs|, h, 0)
  {
    hide Count;
    NoEarlyReturn(|fs|, h);
    ProbeMeetsEmpty(fs, h);
    e :| e < |fs| && fs[Probe(|fs|, h, e)].empty;
  }

  /** A lookup starts at its hash, and is back there at step 2n-1 and never within the first n-1 steps. */
  lemma {:induction false} CycleStart<K(!new)>(fs: seq<Flag>, ks: seq<K>, h: nat, key: K)
    requires 0 < |fs| <= |ks| && IsPow2(|fs|)
    ensures Probe(|fs|, h, 0) == Mask(h, |fs|) && Missed(fs, ks, h, key, 0)
    ensures Probe(|fs|, h, 2 * |fs| - 1) == Probe(|fs|, h, 0)
    ensures forall s: nat :: 1 <= s <= |fs| - 1 ==> Probe(|fs|, h, s) != Probe(|fs|, h, 0)
  {
    hide Probe, Mask;
    var k: nat :| |fs| == Pow2(k);
    FirstReturn(k, h);
    ProbeUnfold(|fs|, h, 0);
  }

  /** One turn of a lookup that meets neither `key` nor an empty bucket. */
  lemma {:induction false} MissedOn<K(!new)>(fs: seq<Flag>, ks: seq<K>, h: nat, key: K, step: nat)
    requires 0 < |fs| <= |ks| && Missed(fs, ks, h, key, step)
    requires var i := Probe(|fs|, h, step); fs[i].del || ks[i] != key
    ensures Missed(fs, ks, h, key, step + 1)
    ensures Probe(|fs|, h, step + 1) == Mask(Probe(|fs|, h, step) + (step + 1), |fs|)
  {
    hide Probe, Mask;
    ProbeUnfold(|fs|, h, step);
  }

  /** Where a lookup ends: at an empty bucket if the key is absent, else at the key. */
  lemma {:induction false} SearchEnds<K(!new), V>(fs: seq<Flag>, ks: seq<K>, vs: seq<V>, hash: K -> nat,
      at: map<K, nat>, key: K, i: nat, step: nat)
    requires Layout(fs, ks, hash, at) && |fs| <= |vs| && i < |fs|
    requires Missed(fs, ks, hash(key), key, step) && i == Probe(|fs|, hash(key), step)
    requires fs[i].empty || (!fs[i].del && ks[i] == key)
    ensures if fs[i].empty then key !in at
            else
              && Live(fs[i]) && key in at && key in ValueMap(fs, ks, vs, hash, at)
              && ValueMap(fs, ks, vs, hash, at)[key] == vs[i]
  {
    hide Layout, Probe, Missed, ValueMap;
    if fs[i].empty {
      MissAfterFullCycle(fs, ks, hash, at, key, step);
    } else {
      ValueAt(fs, ks, vs, hash, at, i, vs[i]);
    }
  }

  /** One turn of a search that meets neither `key` nor an empty bucket; `e` is the step of some empty one. */
  lemma {:induction false} ProbeOn<K(!new)>(fs: seq<Flag>, ks: seq<K>, h: nat, key: K, step: nat, e: nat)
    requires 0 < |fs| <= |ks| && Missed(fs, ks, h, key, step) && ProbePath(fs, h, step)
    requires var i := Probe(|fs|, h, step); !fs[i].empty && (fs[i].del || ks[i] != key)
    requires fs[Probe(|fs|, h, e)].empty && step <= e
    ensures Missed(fs, ks, h, key, step + 1) && ProbePath(fs, h, step + 1) && step + 1 <= e
    ensures Probe(|fs|, h, step + 1) == Mask(Probe(|fs|, h, step) + (step + 1), |fs|)
  {
  }

  /** No bucket met from step `from` on, before step `to`, is a deleted one. */
  ghost predicate NoneDeleted(fs: seq<Flag>, h: nat, from: nat, to: nat)
    requires |fs| > 0
  {
    forall t: nat :: from <= t < to ==> !fs[Probe(|fs|, h, t)].del
  }

  /** The bucket at step `s` is the last deleted one before the first empty one, or that empty one if there is none. */
  ghost predicate LastFree(fs: seq<Flag>, h: nat, s: nat)
    requires |fs| > 0
  {
    && ProbePath(fs, h, s)
    && if fs[Probe(|fs|, h, s)].empty then NoneDeleted(fs, h, 0, s)
       else
         && fs[Probe(|fs|, h, s)].del
         && exists e: nat :: s < e && fs[Probe(|fs|, h, e)].empty && ProbePath(fs, h, e) && NoneDeleted(fs, h, s + 1, e)
  }

  lemma {:induction false} LastFreeIs(fs: seq<Flag>, h: nat, s: nat, e: nat)
    requires |fs| > 0 && s < e && ProbePath(fs, h, e) && fs[Probe(|fs|, h, e)].empty
    requires fs[Probe(|fs|, h, s)].del && NoneDeleted(fs, h, s + 1, e)
    ensures LastFree(fs, h, s)
  {
    hide Probe;
    assert ProbePath(fs, h, s) && !fs[Probe(|fs|, h, s)].empty;
  }

  lemma {:induction false} NothingDeletedYet(fs: seq<Flag>, h: nat)
    requires |fs| > 0
    ensures NoneDeleted(fs, h, 0, 0)
  {
  }

  lemma {:induction false} NoneDeletedOn(fs: seq<Flag>, h: nat, from: nat, to: nat)
    requires |fs| > 0 && NoneDeleted(fs, h, from, to)
    ensures !fs[Probe(|fs|, h, to)].del ==> NoneDeleted(fs, h, from, to + 1)
    ensures NoneDeleted(fs, h, to + 1, to + 1)
  {
  }

  /** The search of `kh_put` after `step` steps: it has met neither `key` nor an empty bucket, and `site` is the last
      deleted bucket met, if there was one. */
  ghost predicate Searching<K(!new)>(fs: seq<Flag>, ks: seq<K>, h: nat, key: K, step: nat, site: nat, siteStep: nat) {
    && 0 < |fs| <= |ks| && site <= |fs|
    && Missed(fs, ks, h, key, step) && ProbePath(fs, h, step)
    && (site < |fs| ==> siteStep < step && site == Probe(|fs|, h, siteStep) && fs[site].del)
    && NoneDeleted(fs, h, if site < |fs| then siteStep + 1 else 0, step)
  }

  /** One turn of it; `e` is the step of some empty bucket. */
  lemma {:induction false} SearchOn<K(!new)>(fs: seq<Flag>, ks: seq<K>, h: nat, key: K, step: nat, site: nat,
      siteStep: nat, e: nat)
    requires Searching(fs, ks, h, key, step, site, siteStep) && fs[Probe(|fs|, h, e)].empty && step <= e
    requires var i := Probe(|fs|, h, step); !fs[i].empty && (fs[i].del || ks[i] != key)
    ensures var i := Probe(|fs|, h, step);
            && Searching(fs, ks, h, key, step + 1, if fs[i].del then i else site, if fs[i].del then step else siteStep)
            && step + 1 <= e && Probe(|fs|, h, step + 1) == Mask(i + (step + 1), |fs|)
  {
    hide Probe, Mask, Missed, ProbePath, NoneDeleted;
    ProbeOn(fs, ks, h, key, step, e);
    NoneDeletedOn(fs, h, if site < |fs| then siteStep + 1 else 0, step);
  }

  lemma {:induction false} SearchBegins<K(!new)>(fs: seq<Flag>, ks: seq<K>, h: nat, key: K)
    requires 0 < |fs| <= |ks| && Missed(fs, ks, h, key, 0) && ProbePath(fs, h, 0)
    ensures Searching(fs, ks, h, key, 0, |fs|, 0)
  {
    NothingDeletedYet(fs, h);
  }

  /** Where the search of `kh_put` ends: at `key`, or at an empty bucket with the last deleted one seen before it. */
  lemma {:induction false} SlotFound<K(!new)>(fs: seq<Flag>, ks: seq<K>, hash: K -> nat, at: map<K, nat>, key: K,
                           i: nat, step: nat, site: nat, siteStep: nat)
    requires Layout(fs, ks, hash, at) && step < |fs| && Searching(fs, ks, hash(key), key, step, site, siteStep)
    requires i == Probe(|fs|, hash(key), step) && (fs[i].empty || (Live(fs[i]) && ks[i] == key))
    ensures var reuse := fs[i].empty && site < |fs|;
            var x, s := if reuse then site else i, if reuse then siteStep else step;
            && (key in at ==> Live(fs[x]) && ks[x] == key)
            && x < |fs| && s < |fs|
            && (key !in at ==> !Live(fs[x]) && x == Probe(|fs|, hash(key), s) && LastFree(fs, hash(key), s))
            && (key !in at ==> ProbePath(fs, hash(key), s))
  {
    hide Layout, Probe, Missed, ProbePath, NoneDeleted;
    if fs[i].empty {
      MissAfterFullCycle(fs, ks, hash, at, key, step);
      if site < |fs| {
        PathPrefix(fs, hash(key), step, siteStep);
        LastFreeIs(fs, hash(key), siteStep, step);
      }
    } else {
      LiveIsFound(fs, ks, hash, at, i);
    }
  }

  /** The request `kh_put` makes of `kh_resize` is never too small. */
  lemma {:induction false} RoomRequest(n: nat, size: nat, upper: nat)
    requires if n == 0 then upper == 0 else IsPow2(n) && 4 <= n < MAX_BUCKETS && upper == UpperBound(n)
    requires size <= upper
    ensures var m := NewBuckets(if n > 2 * size then n - 1 else n + 1);
            && size < UpperBound(m) && n <= m && m > 0 && (m == n || m == 4 || m <= 4 * size)
            && m == if n > 2 * size then n else if n == 0 then 4 else 2 * n
  {
    NextSizes(n);
  }

  class HashTable<K(0, ==, !new), V(0)> {
    const hash: K -> nat
    var nBuckets: nat
    var size: nat
    var nOccupied: nat
    var upperBound: nat
    var flags: PackedFlags
    var keys: array<K>
    var vals: array<V>
    ghost var at: map<K, nat>

    ghost predicate Valid()
      reads this, flags.words, keys, vals
    {
      && flags.words as object != keys && flags.words as object != vals && keys as object != vals
      && flags.Fits() && flags.Length == nBuckets <= keys.Length && nBuckets <= vals.Length
      && Consistent(size, nOccupied, upperBound, flags.View(), keys[..], hash, at)
    }

    /** The finite map the table stands for. */
    ghost function Contents(): map<K, V>
      requires Valid()
      reads this, flags.words, keys, vals
    {
      ConsistentFacts(size, nOccupied, upperBound, flags.View(), keys[..], hash, at);
      ValueMap(flags.View(), keys[..], vals[..], hash, at)
    }

    ghost function Repr(): set<object>
      reads this
    {
      {this, flags.words, keys, vals}
    }

    /** Bucket `x` is live and holds `key`. */
    ghost predicate InBucket(x: nat, key: K)
      reads this, flags.words, keys
    {
      x < nBuckets && x < flags.Length && x < keys.Length && x < vals.Length && Live(flags.View()[x]) && keys[x] == key
    }

    /** `kh_exist`. */
    predicate Exists(x: nat)
      reads this, flags.words
    {
      flags.Fits() && x < flags.Length && !flags.IsEither(x)
    }

    /** The live buckets are the map: every key has one, and every one is a key with its value. */
    lemma {:induction false} LiveBuckets()
      requires Valid()
      ensures nBuckets <= keys.Length && nBuckets <= vals.Length && |Contents()| == size
      ensures forall x :: 0 <= x < nBuckets && Exists(x) ==>
                InBucket(x, keys[x]) && keys[x] in Contents() && Contents()[keys[x]] == vals[x]
      ensures forall k :: k in Contents() ==> exists x :: 0 <= x < nBuckets && Exists(x) && keys[x] == k
    {
      hide PackedFlags.View, PackedFlags.IsEither, Consistent, ValueMap, Layout;
      var fs, ks, vs := flags.View(), keys[..], vals[..];
      ConsistentFacts(size, nOccupied, upperBound, fs, ks, hash, at);
      SizeOfValueMap(fs, ks, vs, hash, at);
      forall x | 0 <= x < nBuckets && Exists(x)
        ensures keys[x] in Contents() && Contents()[keys[x]] == vals[x]
      {
        ValueAt(fs, ks, vs, hash, at, x, vs[x]);
      }
      forall k | k in Contents() ensures exists x :: 0 <= x < nBuckets && Exists(x) && keys[x] == k {
        KeyHasBucket(fs, ks, hash, at, k);
        var x :| 0 <= x < |fs| && Live(fs[x]) && ks[x] == k;
        assert Exists(x);
      }
    }

    lemma {:induction false} SizeOfContents()
      requires Valid()
      ensures |Contents()| == |Contents().Keys| == size
    {
      LiveBuckets();
    }

    constructor (hash: K -> nat)
      ensures Valid() && Contents() == map[] && nBuckets == 0 && this.hash == hash
      ensures fresh(Repr())
    {
      this.hash := hash;
      nBuckets, size, nOccupied, upperBound := 0, 0, 0, 0;
      flags := new PackedFlags(0);
      keys := new K[0];
      vals := new V[0];
      at := map[];
    }

    method Clear()
      requires Valid()
      modifies this, flags.words
      ensures Valid() && Contents() == map[] && size == nOccupied == 0
      ensures Repr() == old(Repr()) && nBuckets == old(nBuckets)
    {
      hide Consistent, ValueMap, Layout;
      ghost var fs, ks, vs := flags.View(), keys[..], vals[..];
      flags.Fill();
      assert keys[..] == ks && vals[..] == vs;
      ClearedConsistent(size, nOccupied, upperBound, fs, flags.View(), ks, vs, hash, at);
      size, nOccupied := 0, 0;
      at := map[];
    }

    /** The bucket of `key`, or `nBuckets` when the table does not hold it. */
    method Get(key: K) returns (x: nat)
      requires Valid()
      ensures x <= nBuckets
      ensures x == nBuckets <==> key !in Contents()
      ensures x < nBuckets ==> x < vals.Length && InBucket(x, key) && vals[x] == Contents()[key]
    {
      hide Layout, Probe, Mask, Missed, Consistent, ValueMap, Count, IsPow2,
           PackedFlags.View, PackedFlags.IsEmpty, PackedFlags.IsDel, PackedFlags.IsEither;
      ghost var fs, ks, vs := flags.View(), keys[..], vals[..];
      ConsistentFacts(size, nOccupied, upperBound, fs, ks, hash, at);
      SizeOfValueMap(fs, ks, vs, hash, at);
      if nBuckets == 0 {
        return 0;
      }
      var h := hash(key);
      var i := Mask(h, nBuckets);
      var last := i;
      var step := 0;
      CycleStart(fs, ks, h, key);
      while !flags.IsEmpty(i) && (flags.IsDel(i) || keys[i] != key)
        invariant 0 <= i < nBuckets && i == Probe(nBuckets, h, step) && step < 2 * nBuckets - 1
        invariant Missed(fs, ks, h, key, step)
        decreases 2 * nBuckets - step
      {
        MissedOn(fs, ks, h, key, step);
        step := step + 1;
        i := Mask(i + step, nBuckets);
        if i == last {
          MissAfterFullCycle(fs, ks, hash, at, key, step);
          return nBuckets;
        }
      }
      SearchEnds(fs, ks, vs, hash, at, key, i, step);
      x := if flags.IsEither(i) then nBuckets else i;
    }

    /** Rehashes to the power of two at least `requested`, unless that is too small for the entries held.
        The map never changes, also when an allocation fails half way. */
    method Resize(requested: nat, alloc: Alloc) returns (ok: bool)
      requires Valid()
      modifies Repr()
      ensures Valid() && Contents() == old(Contents()) && size == old(size) && fresh(Repr() - old(Repr()))
      ensures var n := NewBuckets(requested);
              if size >= UpperBound(n) then ok && nBuckets == old(nBuckets) && nOccupied == old(nOccupied)
              else if !alloc.flags || (old(nBuckets) < n && !(alloc.keys && alloc.vals)) then
                !ok && nBuckets == old(nBuckets) && nOccupied == old(nOccupied)
              else
                ok && nBuckets == n && nOccupied == size && forall i :: 0 <= i < nBuckets ==> !flags.View()[i].del
    {
      hide Layout, ValueMap, Count, Probe, IsPow2, NewBuckets, Consistent;
      var n := NewBuckets(requested);
      NewBucketsIsPow2(requested);
      ConsistentFacts(size, nOccupied, upperBound, flags.View(), keys[..], hash, at);
      if size >= UpperBound(n) {
        return true;
      }
      if !alloc.flags {
        return false;
      }
      Pow2Packs(n);
      var newFlags := new PackedFlags(n);
      if nBuckets < n {
        ok := Enlarge(n, alloc);
        if !ok {
          return;
        }
      }
      RehashTo(n, newFlags);
      ok := true;
    }

    /** The rehashing part of `kh_resize`: moves every entry and switches to the new flags. */
    method RehashTo(n: nat, newFlags: PackedFlags)
      requires Valid() && n <= keys.Length && n <= vals.Length && newFlags.Fits() && newFlags.Length == n
      requires newFlags.words !in Repr() && IsPow2(n) && 4 <= n <= MAX_BUCKETS && size < UpperBound(n) < n
      requires forall i :: 0 <= i < n ==> newFlags.View()[i] == EMPTY_FLAG
      modifies Repr(), newFlags.words
      ensures Valid() && Contents() == old(Contents())
      ensures flags == newFlags && (keys == old(keys) || fresh(keys)) && (vals == old(vals) || fresh(vals))
      ensures nBuckets == n && nOccupied == size == old(size) && forall i :: 0 <= i < nBuckets ==> !flags.View()[i].del
    {
      hide Layout, ValueMap, Count, Probe, IsPow2, Consistent, UpperBound, Live, Occupied;
      ConsistentFacts(size, nOccupied, upperBound, flags.View(), keys[..], hash, at);
      SizeOfValueMap(flags.View(), keys[..], vals[..], hash, at);
      at := Rehash(hash, flags, newFlags, keys, vals, at, Contents());
      flags := newFlags;
      ShrinkTo(n);
      nBuckets := n;
      nOccupied := size;
      upperBound := UpperBound(n);
      RehashedConsistent(size, flags.View(), keys[..], hash, at);
    }

    /** The shrinking part of `kh_resize`: the arrays are cut to `n` when the old table was larger. */
    method ShrinkTo(n: nat)
      requires flags.Fits() && flags.Length == n <= keys.Length && n <= vals.Length
      requires Layout(flags.View(), keys[..], hash, at)
      requires flags.words as object != keys && flags.words as object != vals && keys as object != vals
      modifies this`keys, this`vals
      ensures (keys == old(keys) || fresh(keys)) && (vals == old(vals) || fresh(vals))
      ensures flags.words as object != keys && flags.words as object != vals && keys as object != vals
      ensures n <= keys.Length && n <= vals.Length && Layout(flags.View(), keys[..], hash, at)
      ensures ValueMap(flags.View(), keys[..], vals[..], hash, at) ==
          old(ValueMap(flags.View(), keys[..], vals[..], hash, at))
    {
      hide Layout, ValueMap;
      if nBuckets > n {
        ghost var ks, vs := keys[..], vals[..];
        keys := Realloc(keys, n);
        vals := Realloc(vals, n);
        LayoutPrefix(flags.View(), ks, keys[..], vs, vals[..], hash, at);
      }
    }

    /** The expanding part of `kh_resize`: more room for keys, then for values. */
    method Enlarge(n: nat, alloc: Alloc) returns (ok: bool)
      requires Valid() && nBuckets <= n
      modifies this`keys, this`vals
      ensures Valid() && Contents() == old(Contents())
      ensures keys == old(keys) || fresh(keys)
      ensures vals == old(vals) || fresh(vals)
      ensures ok == (alloc.keys && alloc.vals)
      ensures ok ==> keys.Length == vals.Length == n
    {
      hide Layout, ValueMap, Count, Probe;
      ghost var ks, vs := keys[..], vals[..];
      if !alloc.keys {
        return false;
      }
      keys := Realloc(keys, n);
      LayoutPrefix(flags.View(), ks, keys[..], vs, vs, hash, at);
      if !alloc.vals {
        return false;
      }
      vals := Realloc(vals, n);
      LayoutPrefix(flags.View(), ks, keys[..], vs, vals[..], hash, at);
      ok := true;
    }

    /** The bucket search of `kh_put`: the bucket that holds `key`, or else the last deleted bucket on its probe path
        before the first empty one, or that one. */
    method FindSlot(key: K) returns (x: nat, ghost s: nat)
      requires Valid() && nBuckets > 0
      ensures x < nBuckets
      ensures key in at ==> Live(flags.View()[x]) && keys[x] == key
      ensures key !in at ==>
                !Live(flags.View()[x]) && s < nBuckets && x == Probe(nBuckets, hash(key), s)
                    && ProbePath(flags.View(), hash(key), s) && LastFree(flags.View(), hash(key), s)
    {
      hide Layout, Probe, Mask, Missed, Searching, ProbePath, LastFree, Count, ValueMap, Consistent, IsPow2,
           PackedFlags.View, PackedFlags.IsEmpty, PackedFlags.IsDel, PackedFlags.IsEither;
      ConsistentFacts(size, nOccupied, upperBound, flags.View(), keys[..], hash, at);
      ghost var fs, ks := flags.View(), keys[..];
      var h := hash(key);
      var i := Mask(h, nBuckets);
      var site: nat := nBuckets;
      var step := 0;
      ghost var siteStep := 0;
      ghost var e := SearchStart(fs, ks, h, key);
      SearchBegins(fs, ks, h, key);
      x := nBuckets;
      if flags.IsEmpty(i) {
        x := i;
      } else {
        var last := i;
        while !flags.IsEmpty(i) && (flags.IsDel(i) || keys[i] != key)
          invariant i < nBuckets && i == Probe(nBuckets, h, step) && step <= e
          invariant Searching(fs, ks, h, key, step, site, siteStep) && site <= nBuckets && x == nBuckets
          decreases e - step
        {
          SearchOn(fs, ks, h, key, step, site, siteStep, e);
          if flags.IsDel(i) {
            site := i;
            siteStep := step;
          }
          step := step + 1;
          i := Mask(i + step, nBuckets);
          if i == last {
            x := site;
            break;
          }
        }
        if x == nBuckets {
          x := if flags.IsEmpty(i) && site != nBuckets then site else i;
        }
      }
      s := if flags.IsEmpty(i) && site != nBuckets then siteStep else step;
      SlotFound(fs, ks, hash, at, key, i, step, site, siteStep);
    }

    /** There is a never-used bucket to spare, or the allocations that making one needs succeed: those of a rehash in
        place if less than half of the buckets are live, and those of a larger table otherwise. */
    predicate HasRoom(alloc: Alloc)
      reads this
    {
      nOccupied < upperBound || (alloc.flags && (nBuckets > 2 * size || (alloc.keys && alloc.vals)))
    }

    /** The number of buckets after making room. */
    function RoomFor(): nat
      reads this
    {
      if nBuckets > 2 * size then nBuckets else if nBuckets == 0 then 4 else 2 * nBuckets
    }

    /** The first part of `kh_put`: rehash or expand when the occupied buckets reach the bound. */
    method MakeRoom(alloc: Alloc) returns (ok: bool)
      requires Valid() && nBuckets < MAX_BUCKETS
      modifies Repr()
      ensures Valid() && fresh(Repr() - old(Repr())) && Contents() == old(Contents()) && size == old(size)
      ensures ok == old(HasRoom(alloc))
      ensures !ok || old(nOccupied < upperBound) ==> nBuckets == old(nBuckets) && nOccupied == old(nOccupied)
      ensures ok && old(nOccupied >= upperBound) ==> nOccupied == size && nBuckets == old(RoomFor())
      ensures nBuckets == old(nBuckets) || nBuckets == 4 || nBuckets <= 4 * size
      ensures ok ==> nOccupied < upperBound && nBuckets > 0
    {
      hide Layout, ValueMap, Count, Probe, NewBuckets, Consistent, IsPow2, Live, Occupied, UpperBound;
      ConsistentSizes(size, nOccupied, upperBound, flags.View(), keys[..], hash, at);
      RoomRequest(nBuckets, size, upperBound);
      ok := true;
      if nOccupied >= upperBound {
        var request := if nBuckets > 2 * size then nBuckets - 1 else nBuckets + 1;
        ok := Resize(request, alloc);
      }
      ConsistentSizes(size, nOccupied, upperBound, flags.View(), keys[..], hash, at);
    }

    /** The last part of `kh_put`: takes the bucket `x` found for `key` if it does not hold `key` already. */
    method Occupy(key: K, x: nat, ghost s: nat) returns (ret: int)
      requires Valid() && nOccupied < upperBound && x < nBuckets
      requires key in at ==> Live(flags.View()[x]) && keys[x] == key
      requires key !in at ==>
                 !Live(flags.View()[x]) && s < nBuckets && x == Probe(nBuckets, hash(key), s)
                     && ProbePath(flags.View(), hash(key), s)
      modifies this, flags.words, keys
      ensures Valid() && Repr() == old(Repr()) && nBuckets == old(nBuckets)
      ensures Live(flags.View()[x]) && keys[x] == key
      ensures ret in {0, 1, 2}
      ensures ret == 1 <==> old(flags.View()[x].empty)
      ensures ret == 2 <==> !old(flags.View()[x].empty) && old(flags.View()[x].del)
      ensures ret == 0 ==> Contents() == old(Contents()) && key in old(Contents())
      ensures ret > 0 ==> Contents() == old(Contents())[key := vals[x]] && key !in old(Contents())
      ensures size == old(size) + (if ret > 0 then 1 else 0)
      ensures nOccupied == old(nOccupied) + (if ret == 1 then 1 else 0)
    {
      hide Layout, ValueMap, Count, Probe, ProbePath, Consistent,
           PackedFlags.View, PackedFlags.IsEmpty, PackedFlags.IsDel, PackedFlags.IsEither;
      ConsistentFacts(size, nOccupied, upperBound, flags.View(), keys[..], hash, at);
      SizeOfValueMap(flags.View(), keys[..], vals[..], hash, at);
      if flags.IsEmpty(x) {
        TakeBucket(key, x, s);
        ret := 1;
      } else if flags.IsDel(x) {
        TakeBucket(key, x, s);
        ret := 2;
      } else {
        LiveIsFound(flags.View(), keys[..], hash, at, x);
        ret := 0;
      }
    }

    /** Writes a new key into a free bucket. */
    method TakeBucket(key: K, x: nat, ghost s: nat)
      requires Valid() && nOccupied < upperBound && x < nBuckets && key !in at
      requires !Live(flags.View()[x]) && s < nBuckets && x == Probe(nBuckets, hash(key), s)
      requires ProbePath(flags.View(), hash(key), s)
      modifies this`size, this`nOccupied, this`at, flags.words, keys
      ensures Valid()
      ensures Live(flags.View()[x]) && keys[x] == key
      ensures Contents() == old(Contents())[key := vals[x]] && key !in old(Contents())
      ensures size == old(size) + 1 && nOccupied == old(nOccupied) + (if old(flags.View()[x].empty) then 1 else 0)
    {
      hide Layout, ValueMap, Count, Probe, ProbePath, Consistent,
           PackedFlags.View, PackedFlags.IsEmpty, PackedFlags.IsDel, PackedFlags.IsEither;
      ghost var fs, ks := flags.View(), keys[..];
      OccupyKeepsConsistent(size, nOccupied, upperBound, fs, ks, vals[..], hash, at, key, s, x);
      size, nOccupied := size + 1, nOccupied + (if flags.IsEmpty(x) then 1 else 0);
      at := at[key := s];
      keys[x] := key;
      flags.SetIsBothFalse(x);
      assert flags.View() == fs[x := LIVE_FLAG] && keys[..] == ks[x := key];
    }

    /** Makes room for `key`.  `ret` is 0 when it was present, 1 when it took a never-used bucket, 2 when it
        reused a deleted one, and -1 when a needed allocation failed. */
    method Put(key: K, alloc: Alloc) returns (x: nat, ret: int)
      requires Valid() && nBuckets < MAX_BUCKETS
      modifies Repr()
      ensures Valid() && fresh(Repr() - old(Repr()))
      ensures ret in {-1, 0, 1, 2}
      ensures ret == -1 <==> !old(HasRoom(alloc))
      ensures ret == -1 ==> Contents() == old(Contents()) && x == nBuckets
      ensures nBuckets == if ret == -1 || old(nOccupied < upperBound) then old(nBuckets) else old(RoomFor())
      ensures ret == 0 ==> key in old(Contents()) && Contents() == old(Contents())
      ensures ret > 0 ==> x < vals.Length && key !in old(Contents()) && Contents() == old(Contents())[key := vals[x]]
      ensures ret >= 0 ==> InBucket(x, key)
      ensures size == old(size) + (if ret > 0 then 1 else 0)
      ensures nBuckets == old(nBuckets) || nBuckets == 4 || nBuckets <= 4 * old(size)
    {
      hide Layout, ValueMap, Count, Probe, ProbePath, Consistent;
      var ok := MakeRoom(alloc);
      if !ok {
        return nBuckets, -1;
      }
      ghost var s;
      x, s := FindSlot(key);
      ret := Occupy(key, x, s);
    }

    /** Deletes the entry in bucket `x`, if there is one. */
    method Del(x: nat)
      requires Valid() && x <= nBuckets
      modifies this, flags.words
      ensures Valid() && nBuckets == old(nBuckets)
      ensures flags == old(flags) && keys == old(keys) && vals == old(vals) && unchanged(keys, vals)
      ensures forall key :: old(InBucket(x, key)) ==> Contents() == old(Contents()) - {key}
      ensures !old(Exists(x)) ==> Contents() == old(Contents())
      ensures !Exists(x) && forall i :: i != x ==> Exists(i) == old(Exists(i))
    {
      hide Layout, ValueMap, Count, Probe, Consistent, PackedFlags.View, PackedFlags.IsEmpty, PackedFlags.IsDel,
          PackedFlags.IsEither;
      if x != nBuckets && !flags.IsEither(x) {
        ghost var fs := flags.View();
        DeleteKeepsConsistent(size, nOccupied, upperBound, fs, keys[..], vals[..], hash, at, x);
        at := at - {keys[x]};
        flags.SetIsDelTrue(x);
        size := size - 1;
        assert flags.View() == fs[x := Flag(false, true)];
      }
    }

    /** Assigning through `kh_value`; the bucket holds `key`. */
    method SetValue(x: nat, v: V, ghost key: K)
      requires Valid() && InBucket(x, key)
      modifies vals
      ensures Valid() && InBucket(x, key) && Contents() == old(Contents())[key := v] && vals[x] == v
    {
      hide Layout, ValueMap, Count, Probe, Consistent, PackedFlags.View;
      ConsistentFacts(size, nOccupied, upperBound, flags.View(), keys[..], hash, at);
      ValueAt(flags.View(), keys[..], vals[..], hash, at, x, v);
      ghost var vs := vals[..];
      vals[x] := v;
      assert vals[..] == vs[x := v];
    }
  }
}
