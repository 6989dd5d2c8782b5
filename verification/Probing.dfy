/** The probe sequence of khash: starting from the hash, the step from one bucket to the next grows by one,
    so after `s` steps the offset is the triangular number of `s`.  Masking with `n_buckets - 1` is
    reduction modulo `n_buckets`, because the number of buckets is a power of two. */
module Probing {
  import opened Arithmetic

  function Tri(s: nat): nat {
    if s == 0 then 0 else Tri(s - 1) + s
  }

  /** `x & (n - 1)` for a power of two `n`. */
  function Mask(x: nat, n: nat): (i: nat)
    requires n > 0
    ensures i < n
  {
    x % n
  }

  /** The bucket visited after `s` steps. */
  function Probe(n: nat, h: nat, s: nat): (i: nat)
    requires n > 0
    ensures i < n
  {
    if s == 0 then h % n else (Probe(n, h, s - 1) + s) % n
  }

  lemma {:induction false} ProbeUnfold(n: nat, h: nat, s: nat)
    requires n > 0
    ensures Probe(n, h, 0) == Mask(h, n)
    ensures Probe(n, h, s + 1) == Mask(Probe(n, h, s) + (s + 1), n)
  {
  }

  lemma {:induction false} RemainderUnique(n: nat, x: int, q: int, r: int)
    requires 0 <= r < n && x == n * q + r
    ensures x % n == r && x / n == q
  {
    var d := q - x / n;
    assert n * d == x % n - r by {
      assert x == n * (x / n) + x % n;
    }
    MultipleIsFar(n, d);
  }

  lemma {:induction false} MultipleIsFar(n: nat, d: int)
    ensures d == 0 || n * d >= n || -(n * d) >= n
  {
    if d > 0 {
      assert n * d == n + n * (d - 1);
    } else if d < 0 {
      assert -(n * d) == n + n * (-d - 1);
    }
  }

  /** Two numbers with the same remainder differ by a multiple of the modulus, and conversely. */
  lemma {:induction false} SameRemainder(n: nat, x: nat, y: nat)
    requires n > 0
    ensures x % n == y % n <==> (x - y) % n == 0
  {
    var qx, qy := x / n, y / n;
    assert x - y == n * (qx - qy) + (x % n - y % n);
    if x % n == y % n {
      RemainderUnique(n, x - y, qx - qy, 0);
    } else if (x - y) % n == 0 {
      var q := (x - y) / n;
      assert x == n * (q + qy) + y % n;
      RemainderUnique(n, x, q + qy, y % n);
    }
  }

  lemma {:induction false} RemainderOfSum(n: nat, x: nat, s: nat)
    requires n > 0
    ensures (x % n + s) % n == (x + s) % n
  {
    var p := x % n + s;
    assert x + s == n * (x / n) + p && p == n * (p / n) + p % n;
    assert x + s == n * (x / n + p / n) + p % n;
    RemainderUnique(n, x + s, x / n + p / n, p % n);
  }

  lemma {:induction false} ProbeClosedForm(n: nat, h: nat, s: nat)
    requires n > 0
    ensures Probe(n, h, s) == (h + Tri(s)) % n
  {
    hide Probe, Tri;
    ProbeAndTri(n, h, s);
    if s > 0 {
      ProbeClosedForm(n, h, s - 1);
      RemainderStep(n, h + Tri(s - 1), s, Probe(n, h, s - 1), Probe(n, h, s));
    }
  }

  lemma {:induction false} ProbeAndTri(n: nat, h: nat, s: nat)
    requires n > 0
    ensures if s == 0 then Probe(n, h, s) == h % n && Tri(s) == 0
            else Probe(n, h, s) == (Probe(n, h, s - 1) + s) % n && Tri(s) == Tri(s - 1) + s
  {
  }

  lemma {:induction false} RemainderStep(n: nat, x: nat, s: nat, p: nat, q: nat)
    requires n > 0 && p == x % n && q == (p + s) % n
    ensures q == (x + s) % n
  {
    RemainderOfSum(n, x, s);
  }

  lemma {:induction false} TwiceTri(s: nat)
    ensures 2 * Tri(s) == s * (s + 1)
  {
    if s > 0 {
      TwiceTri(s - 1);
    }
  }

  /** A power of two that divides a product with one odd factor divides the other factor. */
  lemma {:induction false} OddFactorDropsOut(k: nat, odd: int, x: int)
    requires odd % 2 == 1 && (odd * x) % Pow2(k) == 0
    ensures x % Pow2(k) == 0
  {
    if k > 0 {
      var q := odd * x / Pow2(k);
      assert odd * x == 2 * (Pow2(k - 1) * q);
      var o := odd / 2;
      assert odd * x == 2 * (o * x) + x;
      var y := Pow2(k - 1) * q - o * x;
      assert x == 2 * y;
      assert odd * y == Pow2(k - 1) * q + 0 by {
        assert 2 * (odd * y) == odd * x;
      }
      RemainderUnique(Pow2(k - 1), odd * y, q, 0);
      OddFactorDropsOut(k - 1, odd, y);
      var z := y / Pow2(k - 1);
      assert x == Pow2(k) * z;
      RemainderUnique(Pow2(k), x, z, 0);
    }
  }

  lemma {:induction false} TriDifference(s: nat, t: nat)
    requires s <= t
    ensures (t - s) * (t + s + 1) == 2 * (Tri(t) - Tri(s))
  {
    TwiceTri(s);
    TwiceTri(t);
    assert (t - s) * (t + s + 1) == t * (t + 1) - s * (s + 1);
  }

  /** Two steps reach the same bucket only if 2^(k+1) divides (t - s)(t + s + 1). */
  lemma {:induction false} SameBucket(k: nat, h: nat, s: nat, t: nat)
    requires s <= t && Probe(Pow2(k), h, s) == Probe(Pow2(k), h, t)
    ensures ((t - s) * (t + s + 1)) % Pow2(k + 1) == 0
  {
    var n := Pow2(k);
    ProbeClosedForm(n, h, s);
    ProbeClosedForm(n, h, t);
    SameRemainder(n, h + Tri(t), h + Tri(s));
    TriDifference(s, t);
    DoubleMultiple(n, Tri(t) - Tri(s));
  }

  lemma {:induction false} DoubleMultiple(n: nat, d: int)
    requires n > 0 && d % n == 0
    ensures (2 * d) % (2 * n) == 0
  {
    assert 2 * d == (2 * n) * (d / n);
    RemainderUnique(2 * n, 2 * d, d / n, 0);
  }

  lemma {:induction false} ZeroOrBig(n: nat, x: nat)
    requires n > 0 && x % n == 0
    ensures x == 0 || x >= n
  {
  }

  /** Exactly one of the two factors is odd, so the power of two divides the other one whole. */
  lemma {:induction false} OneFactorTakesAll(k: nat, s: nat, t: nat)
    requires s < t && ((t - s) * (t + s + 1)) % Pow2(k) == 0
    ensures t - s >= Pow2(k) || t + s + 1 >= Pow2(k)
  {
    hide Pow2;
    var a, b := t - s, t + s + 1;
    assert a + b == 2 * t + 1;
    if a % 2 == 1 {
      OddFactorDropsOut(k, a, b);
      ZeroOrBig(Pow2(k), b);
    } else {
      assert b % 2 == 1;
      assert b * a == a * b;
      OddFactorDropsOut(k, b, a);
      ZeroOrBig(Pow2(k), a);
    }
  }

  lemma {:induction false} ProbeInjective(k: nat, h: nat, s: nat, t: nat)
    requires s < t < Pow2(k)
    ensures Probe(Pow2(k), h, s) != Probe(Pow2(k), h, t)
  {
    if Probe(Pow2(k), h, s) == Probe(Pow2(k), h, t) {
      SameBucket(k, h, s, t);
      OneFactorTakesAll(k + 1, s, t);
      assert false;
    }
  }

  /** The probe first returns to its starting bucket at step 2^(k+1) - 1. */
  lemma {:induction false} FirstReturn(k: nat, h: nat)
    ensures Probe(Pow2(k), h, Pow2(k + 1) - 1) == Probe(Pow2(k), h, 0)
    ensures forall s :: 1 <= s < Pow2(k + 1) - 1 ==> Probe(Pow2(k), h, s) != Probe(Pow2(k), h, 0)
  {
    var n, m := Pow2(k), Pow2(k + 1) - 1;
    ProbeClosedForm(n, h, m);
    TwiceTri(m);
    assert 2 * Tri(m) == m * (2 * n);
    assert Tri(m) == n * m;
    RemainderUnique(n, Tri(m), m, 0);
    SameRemainder(n, h + Tri(m), h);
    forall s | 1 <= s < m ensures Probe(n, h, s) != Probe(n, h, 0) {
      if Probe(n, h, s) == Probe(n, h, 0) {
        SameBucket(k, h, 0, s);
        OneFactorTakesAll(k + 1, 0, s);
        assert false;
      }
    }
  }

  lemma {:induction false} NoEarlyReturn(n: nat, h: nat)
    requires IsPow2(n)
    ensures forall s: nat :: 1 <= s <= n - 1 ==> Probe(n, h, s) != Probe(n, h, 0)
  {
    var k: nat :| n == Pow2(k);
    FirstReturn(k, h);
  }

  function Below(n: nat): (r: set<nat>)
    ensures forall i: nat :: i in r <==> i < n
  {
    if n == 0 then {} else Below(n - 1) + {n - 1}
  }

  lemma {:induction false} BelowSize(n: nat)
    ensures |Below(n)| == n
  {
    if n > 0 {
      BelowSize(n - 1);
    }
  }

  function Visited(n: nat, h: nat, m: nat): set<nat>
    requires n > 0
  {
    set s | 0 <= s < m :: Probe(n, h, s)
  }

  lemma {:induction false} VisitedSize(k: nat, h: nat, m: nat)
    requires m <= Pow2(k)
    ensures |Visited(Pow2(k), h, m)| == m
  {
    if m > 0 {
      VisitedSize(k, h, m - 1);
      var last := Probe(Pow2(k), h, m - 1);
      assert Visited(Pow2(k), h, m) == Visited(Pow2(k), h, m - 1) + {last};
      assert last !in Visited(Pow2(k), h, m - 1) by {
        forall s | 0 <= s < m - 1 ensures Probe(Pow2(k), h, s) != last {
          ProbeInjective(k, h, s, m - 1);
        }
      }
    }
  }

  lemma {:induction false} SubsetOfSameSize<T>(a: set<T>, b: set<T>)
    requires a <= b && |a| == |b|
    ensures a == b
  {
    if a != b {
      var x :| x in b && x !in a;
      assert a <= b - {x};
      SubsetSize(a, b - {x});
    }
  }

  lemma {:induction false} SubsetSize<T>(a: set<T>, b: set<T>)
    requires a <= b
    ensures |a| <= |b|
    decreases a
  {
    if a != {} {
      var x :| x in a;
      SubsetSize(a - {x}, b - {x});
    }
  }

  /** The first 2^k positions of the probe visit every bucket. */
  lemma {:induction false} ProbeVisitsEveryBucket(n: nat, h: nat, i: nat)
    requires IsPow2(n) && i < n
    ensures exists s: nat :: s < n && Probe(n, h, s) == i
  {
    var k: nat :| n == Pow2(k);
    VisitedSize(k, h, n);
    BelowSize(n);
    SubsetOfSameSize(Visited(n, h, n), Below(n));
    assert i in Visited(n, h, n);
  }
}
