/** The bit-level forms khash uses: two flag bits per bucket packed sixteen to a word, and rounding up by smearing. */
module Bits {
  import opened Arithmetic
  import opened Probing
  import opened Buckets

  // ----- flags

  /** The bit position of bucket `i` inside its word: `(i & 0xf) << 1`. */
  function Shift(i: nat): (s: bv6)
    ensures Position(s)
  {
    ((i % 16) as bv6) << 1
  }

  predicate Position(s: bv6) {
    s < 32 && s & 1 == 0
  }

  predicate TwoBits(m: bv32) {
    m < 4
  }

  /** The words for `m` buckets. */
  function FlagWords(m: nat): nat {
    if m < 16 then 1 else m / 16
  }

  predicate EmptyAt(flags: seq<bv32>, i: nat)
    requires i / 16 < |flags|
  {
    (flags[i / 16] >> Shift(i)) & 2 != 0
  }

  predicate DelAt(flags: seq<bv32>, i: nat)
    requires i / 16 < |flags|
  {
    (flags[i / 16] >> Shift(i)) & 1 != 0
  }

  predicate EitherAt(flags: seq<bv32>, i: nat)
    requires i / 16 < |flags|
  {
    (flags[i / 16] >> Shift(i)) & 3 != 0
  }

  /** The flags of the first `n` buckets, as the hash table sees them. */
  function Unpacked(flags: seq<bv32>, n: nat): (fs: seq<Flag>)
    requires n <= 16 * |flags|
    ensures |fs| == n
  {
    seq(n, i requires 0 <= i < n => Flag(EmptyAt(flags, i), DelAt(flags, i)))
  }

  lemma {:induction false} EitherIsNotLive(flags: seq<bv32>, n: nat, i: nat)
    requires n <= 16 * |flags| && i < n
    ensures EitherAt(flags, i) <==> !Live(Unpacked(flags, n)[i])
  {
    var b := flags[i / 16] >> Shift(i);
    assert b & 3 == 0 <==> b & 2 == 0 && b & 1 == 0;
  }

  /** The flag at a position of a word. */
  function FlagBits(w: bv32, s: bv6): Flag
    requires Position(s)
  {
    Flag((w >> s) & 2 != 0, (w >> s) & 1 != 0)
  }

  function SetBits(w: bv32, s: bv6, m: bv32): bv32
    requires Position(s)
  {
    w | (m << s)
  }

  function ClearBits(w: bv32, s: bv6, m: bv32): bv32
    requires Position(s)
  {
    w & !(m << s)
  }

  /** The two bits at a position. */
  function Part(w: bv32, s: bv6): bv32
    requires Position(s)
  {
    (w >> s) & 3
  }

  function FlagOf(part: bv32): Flag {
    Flag(part & 2 != 0, part & 1 != 0)
  }

  lemma {:induction false} FlagOfPart(w: bv32, s: bv6)
    requires Position(s)
    ensures FlagBits(w, s) == FlagOf(Part(w, s))
  {
  }

  lemma {:induction false} SetRaw(w: bv32, s: bv6, t: bv6, m: bv32)
    requires Position(s) && Position(t) && TwoBits(m)
    ensures Part(SetBits(w, s, m), t) == if s == t then Joined(Part(w, s), m) else Part(w, t)
  {
  }

  lemma {:induction false} ClearRaw(w: bv32, s: bv6, t: bv6, m: bv32)
    requires Position(s) && Position(t) && TwoBits(m)
    ensures Part(ClearBits(w, s, m), t) == if s == t then Removed(Part(w, s), m) else Part(w, t)
  {
  }

  function WithSet(f: Flag, m: bv32): Flag {
    Flag(f.empty || m & 2 != 0, f.del || m & 1 != 0)
  }

  function WithCleared(f: Flag, m: bv32): Flag {
    Flag(f.empty && m & 2 == 0, f.del && m & 1 == 0)
  }

  function Joined(part: bv32, m: bv32): bv32 {
    part | m
  }

  function Removed(part: bv32, m: bv32): bv32 {
    part & !m
  }

  lemma {:induction false} JoinedFlag(part: bv32, m: bv32)
    ensures FlagOf(Joined(part, m)) == WithSet(FlagOf(part), m)
  {
  }

  lemma {:induction false} RemovedFlag(part: bv32, m: bv32)
    ensures FlagOf(Removed(part, m)) == WithCleared(FlagOf(part), m)
  {
  }

  /** Setting the bits `m` at one position: they are set there, and no other position changes. */
  lemma {:induction false} SetBitsAt(w: bv32, s: bv6, t: bv6, m: bv32)
    requires Position(s) && Position(t) && TwoBits(m)
    ensures FlagBits(SetBits(w, s, m), t) == if s == t then WithSet(FlagBits(w, t), m) else FlagBits(w, t)
  {
    hide SetBits, FlagBits, FlagOf, Part, Position, TwoBits, WithSet, Joined;
    FlagOfPart(SetBits(w, s, m), t);
    FlagOfPart(w, t);
    SetRaw(w, s, t, m);
    JoinedFlag(Part(w, t), m);
  }

  /** Clearing the bits `m` at one position: they are clear there, and no other position changes. */
  lemma {:induction false} ClearBitsAt(w: bv32, s: bv6, t: bv6, m: bv32)
    requires Position(s) && Position(t) && TwoBits(m)
    ensures FlagBits(ClearBits(w, s, m), t) == if s == t then WithCleared(FlagBits(w, t), m) else FlagBits(w, t)
  {
    hide ClearBits, FlagBits, FlagOf, Part, Position, TwoBits, WithCleared, Removed;
    FlagOfPart(ClearBits(w, s, m), t);
    FlagOfPart(w, t);
    ClearRaw(w, s, t, m);
    RemovedFlag(Part(w, t), m);
  }

  lemma {:induction false} UnpackedAt(flags: seq<bv32>, n: nat, i: nat)
    requires n <= 16 * |flags| && i < n
    ensures Unpacked(flags, n)[i] == FlagBits(flags[i / 16], Shift(i))
  {
  }

  lemma {:induction false} SlotsDiffer(a: nat, b: nat)
    requires a < 16 && b < 16 && a != b
    ensures (a as bv6) << 1 != (b as bv6) << 1
  {
  }

  lemma {:induction false} ShiftsDiffer(i: nat, j: nat)
    requires i != j && i / 16 == j / 16
    ensures Shift(i) != Shift(j)
  {
    SlotsDiffer(i % 16, j % 16);
  }

  /** Setting bits of bucket `i` updates its flag and no other. */
  lemma {:induction false} SetUnpacked(flags: seq<bv32>, n: nat, i: nat, m: bv32)
    requires n <= 16 * |flags| && i < n && TwoBits(m)
    ensures Unpacked(flags[i / 16 := SetBits(flags[i / 16], Shift(i), m)], n)
            == Unpacked(flags, n)[i := WithSet(Unpacked(flags, n)[i], m)]
  {
    hide Unpacked, Shift, SetBits, FlagBits;
    UnpackedAt(flags, n, i);
    var after := flags[i / 16 := SetBits(flags[i / 16], Shift(i), m)];
    forall j | 0 <= j < n
      ensures Unpacked(after, n)[j] == FlagBits(after[j / 16], Shift(j))
      ensures Unpacked(flags, n)[j] == FlagBits(flags[j / 16], Shift(j))
      ensures j == i || Unpacked(after, n)[j] == Unpacked(flags, n)[j]
    {
      UnpackedAt(flags, n, j);
      UnpackedAt(after, n, j);
      SetBitsAt(flags[i / 16], Shift(i), Shift(j), m);
      if j != i && j / 16 == i / 16 {
        ShiftsDiffer(i, j);
      }
    }
    SetBitsAt(flags[i / 16], Shift(i), Shift(i), m);
  }

  /** Clearing bits of bucket `i` updates its flag and no other. */
  lemma {:induction false} ClearUnpacked(flags: seq<bv32>, n: nat, i: nat, m: bv32)
    requires n <= 16 * |flags| && i < n && TwoBits(m)
    ensures Unpacked(flags[i / 16 := ClearBits(flags[i / 16], Shift(i), m)], n)
            == Unpacked(flags, n)[i := WithCleared(Unpacked(flags, n)[i], m)]
  {
    hide Unpacked, Shift, ClearBits, FlagBits;
    UnpackedAt(flags, n, i);
    var after := flags[i / 16 := ClearBits(flags[i / 16], Shift(i), m)];
    forall j | 0 <= j < n
      ensures Unpacked(after, n)[j] == FlagBits(after[j / 16], Shift(j))
      ensures Unpacked(flags, n)[j] == FlagBits(flags[j / 16], Shift(j))
      ensures j == i || Unpacked(after, n)[j] == Unpacked(flags, n)[j]
    {
      UnpackedAt(flags, n, j);
      UnpackedAt(after, n, j);
      ClearBitsAt(flags[i / 16], Shift(i), Shift(j), m);
      if j != i && j / 16 == i / 16 {
        ShiftsDiffer(i, j);
      }
    }
    ClearBitsAt(flags[i / 16], Shift(i), Shift(i), m);
  }

  /** A word of bytes 0xaa says "empty" at every position. */
  lemma {:induction false} AllEmptyWord(s: bv6)
    requires Position(s)
    ensures FlagBits(0xaaaa_aaaa, s) == EMPTY_FLAG
  {
    var w: bv32 := 0xaaaa_aaaa;
    assert (w >> s) & 3 == 2;
    var b := w >> s;
    assert b & 2 == (b & 3) & 2 && b & 1 == (b & 3) & 1;
  }

  lemma {:induction false} AllEmptyFlags(flags: seq<bv32>, n: nat)
    requires n <= 16 * |flags| && forall k :: 0 <= k < |flags| ==> flags[k] == 0xaaaa_aaaa
    ensures forall i :: 0 <= i < n ==> Unpacked(flags, n)[i] == EMPTY_FLAG
  {
    forall i | 0 <= i < n ensures Unpacked(flags, n)[i] == EMPTY_FLAG {
      UnpackedAt(flags, n, i);
      AllEmptyWord(Shift(i));
    }
  }

  lemma {:induction false} Pow2Packs(n: nat)
    requires IsPow2(n)
    ensures n <= 16 * FlagWords(n)
  {
    var k: nat :| n == Pow2(k);
    FourDoublings(k);
    hide Pow2;
  }

  lemma {:induction false} FourDoublings(k: nat)
    ensures if k >= 4 then Pow2(k) == 16 * Pow2(k - 4) else Pow2(k) < 16
  {
    if k >= 4 {
      assert Pow2(k) == 2 * Pow2(k - 1) && Pow2(k - 1) == 2 * Pow2(k - 2);
      assert Pow2(k - 2) == 2 * Pow2(k - 3) && Pow2(k - 3) == 2 * Pow2(k - 4);
    } else {
      assert Pow2(0) == 1 && Pow2(1) == 2 && Pow2(2) == 4 && Pow2(3) == 8;
    }
  }

  /** The flags of a table with `Length` buckets, packed into words. */
  class PackedFlags {
    const Length: nat
    const words: array<bv32>

    predicate Fits() {
      Length <= 16 * words.Length
    }

    /** The flags, bucket by bucket. */
    ghost function View(): (flags: seq<Flag>)
      reads words
      ensures |flags| == Length
    {
      if Fits() then Unpacked(words[..], Length) else seq(Length, _ => EMPTY_FLAG)
    }

    /** Flags for `n` buckets, all empty. */
    constructor (n: nat)
      requires n <= 16 * FlagWords(n)
      ensures Length == n && Fits() && fresh(words)
      ensures forall i :: 0 <= i < n ==> View()[i] == EMPTY_FLAG
    {
      Length := n;
      words := new bv32[FlagWords(n)];
      new;
      Fill();
    }

    /** The `memset` of new or cleared flags. */
    method Fill()
      requires Fits()
      modifies words
      ensures forall i :: 0 <= i < Length ==> View()[i] == EMPTY_FLAG
    {
      for k := 0 to words.Length
        invariant forall j :: 0 <= j < k ==> words[j] == 0xaaaa_aaaa
      {
        words[k] := 0xaaaa_aaaa;
      }
      AllEmptyFlags(words[..], Length);
    }

    predicate IsEmpty(i: nat)
      requires Fits() && i < Length
      reads words
      ensures IsEmpty(i) <==> View()[i].empty
    {
      EmptyAt(words[..], i)
    }

    predicate IsDel(i: nat)
      requires Fits() && i < Length
      reads words
      ensures IsDel(i) <==> View()[i].del
    {
      DelAt(words[..], i)
    }

    predicate IsEither(i: nat)
      requires Fits() && i < Length
      reads words
      ensures IsEither(i) <==> !Live(View()[i])
    {
      EitherIsNotLive(words[..], Length, i);
      EitherAt(words[..], i)
    }

    method SetIsDelTrue(i: nat)
      requires Fits() && i < Length
      modifies words
      ensures View() == old(View())[i := old(View()[i]).(del := true)]
    {
      hide Unpacked, Shift, SetBits, ClearBits;
      SetUnpacked(words[..], Length, i, 1);
      ghost var after := words[..][i / 16 := SetBits(words[i / 16], Shift(i), 1)];
      words[i / 16] := SetBits(words[i / 16], Shift(i), 1);
      assert words[..] == after;
    }

    method SetIsEmptyFalse(i: nat)
      requires Fits() && i < Length
      modifies words
      ensures View() == old(View())[i := old(View()[i]).(empty := false)]
    {
      hide Unpacked, Shift, SetBits, ClearBits;
      ClearUnpacked(words[..], Length, i, 2);
      ghost var after := words[..][i / 16 := ClearBits(words[i / 16], Shift(i), 2)];
      words[i / 16] := ClearBits(words[i / 16], Shift(i), 2);
      assert words[..] == after;
    }

    method SetIsBothFalse(i: nat)
      requires Fits() && i < Length
      modifies words
      ensures View() == old(View())[i := LIVE_FLAG]
    {
      hide Unpacked, Shift, SetBits, ClearBits;
      ClearUnpacked(words[..], Length, i, 3);
      ghost var after := words[..][i / 16 := ClearBits(words[i / 16], Shift(i), 3)];
      words[i / 16] := ClearBits(words[i / 16], Shift(i), 3);
      assert words[..] == after;
    }
  }

  // ----- sizes

  /** `kroundup32`: all bits below the highest are set, then one is added. */
  function RoundUp32(x: bv32): bv32 {
    var a := x - 1;
    var b := a | (a >> 1);
    var c := b | (b >> 2);
    var d := c | (c >> 4);
    var e := d | (d >> 8);
    var f := e | (e >> 16);
    f + 1
  }

  /** The result is a power of two with `x` in its upper half, or 0 when no power of two that is at least `x` fits. */
  lemma {:induction false} RoundUp32IsNextPow2(x: bv32)
    ensures var r := RoundUp32(x);
            if x == 0 || x > 0x8000_0000 then r == 0
            else r & (r - 1) == 0 && r >= x && (r >> 1) < x
  {
  }

  function Half(x: bv32): bv32 {
    x >> 1
  }

  predicate Odd(x: bv32) {
    x & 1 == 1
  }

  predicate AtMost(x: bv32, y: bv32) {
    x <= y
  }

  /** The number a word denotes. */
  function Value(x: bv32): nat
    decreases x
  {
    HalfIsLess(x);
    if x == 0 then 0 else 2 * Value(Half(x)) + (if Odd(x) then 1 else 0)
  }

  lemma {:induction false} HalfIsLess(x: bv32)
    ensures x != 0 ==> Half(x) < x
    ensures Half(0) == 0 && !Odd(0)
  {
  }

  lemma {:induction false} ValueHalves(x: bv32)
    ensures Value(x) == 2 * Value(Half(x)) + (if Odd(x) then 1 else 0)
  {
    HalfIsLess(x);
  }

  lemma {:induction false} HalfOrder(x: bv32, y: bv32)
    requires AtMost(x, y)
    ensures AtMost(Half(x), Half(y)) && (y == 0 ==> x == 0)
  {
  }

  lemma {:induction false} OddOrder(x: bv32, y: bv32)
    requires AtMost(x, y) && Half(x) == Half(y)
    ensures Odd(x) ==> Odd(y)
    ensures Odd(x) == Odd(y) ==> x == y
  {
  }

  /** Unsigned comparison compares the numbers, and different words are different numbers. */
  lemma {:induction false} ValueOrder(x: bv32, y: bv32)
    requires AtMost(x, y)
    ensures Value(x) <= Value(y)
    ensures Value(x) == Value(y) ==> x == y
    decreases y
  {
    HalfIsLess(y);
    hide AtMost, Half, Odd, Value;
    HalfOrder(x, y);
    if y != 0 {
      ValueHalves(x);
      ValueHalves(y);
      ValueOrder(Half(x), Half(y));
      if Half(x) == Half(y) {
        OddOrder(x, y);
      }
    }
  }

  predicate OneBit(r: bv32) {
    r & (r - 1) == 0 && r != 0
  }

  lemma {:induction false} OneBitHalf(r: bv32)
    requires OneBit(r)
    ensures r != 0 && if Odd(r) then Half(r) == 0 else OneBit(Half(r))
  {
  }

  lemma {:induction false} OneBitIsPow2(r: bv32)
    requires OneBit(r)
    ensures IsPow2(Value(r))
    decreases r
  {
    HalfIsLess(r);
    OneBitHalf(r);
    ValueHalves(r);
    hide OneBit, Half, Odd;
    if Odd(r) {
      assert Value(0) == 0 && 1 == Pow2(0);
    } else {
      OneBitIsPow2(Half(r));
      var k: nat :| Value(Half(r)) == Pow2(k);
      assert 2 * Pow2(k) == Pow2(k + 1);
    }
  }

  /** There is one power of two in `x .. 2 * x`. */
  lemma {:induction false} NextPow2Unique(x: nat, r: nat)
    requires x > 0 && IsPow2(r) && x <= r < 2 * x
    ensures Doubled(1, x) == r
  {
    assert 1 == Pow2(0);
    DoubledIsPow2(1, x);
    var a: nat :| r == Pow2(a);
    var b: nat :| Doubled(1, x) == Pow2(b);
    Pow2Between(a, b);
    Pow2Between(b, a);
  }

  lemma {:induction false} FourHalves(x: bv32)
    requires x & 0xf == 0
    ensures var a, b, c := Half(x), Half(Half(x)), Half(Half(Half(x)));
            !Odd(x) && !Odd(a) && !Odd(b) && !Odd(c) && Half(c) == x >> 4
  {
  }

  lemma {:induction false} FourZeros(x: bv32, y: bv32)
    requires x & 0xf == 0 && y == x >> 4
    ensures Value(x) == 16 * Value(y)
  {
    hide Half, Odd, Value;
    FourHalves(x);
    ValueHalves(x);
    ValueHalves(Half(x));
    ValueHalves(Half(Half(x)));
    ValueHalves(Half(Half(Half(x))));
  }

  lemma {:induction false} ValueOf8()
    ensures Value(8) == 8
  {
    hide Value;
    ValueHalves(8);
    ValueHalves(4);
    ValueHalves(2);
    ValueHalves(1);
    HalfIsLess(1);
    ValueOfZero();
  }

  lemma {:induction false} ValueOfZero()
    ensures Value(0) == 0
  {
  }

  lemma {:induction false} ValueOfMax()
    ensures Value(0x8000_0000) == MAX_BUCKETS
  {
    hide Value;
    FourZeros(0x8000_0000, 0x800_0000);
    FourZeros(0x800_0000, 0x80_0000);
    FourZeros(0x80_0000, 0x8_0000);
    FourZeros(0x8_0000, 0x8000);
    FourZeros(0x8000, 0x800);
    FourZeros(0x800, 0x80);
    FourZeros(0x80, 8);
    ValueOf8();
  }

  predicate NoRoom(x: bv32) {
    x == 0 || x > 0x8000_0000
  }

  lemma {:induction false} NoRoomValue(x: bv32)
    ensures NoRoom(x) <==> Value(x) == 0 || Value(x) > MAX_BUCKETS
  {
    ValueOfMax();
    ValueOrder(0, x);
    if x <= 0x8000_0000 {
      ValueOrder(x, 0x8000_0000);
    } else {
      ValueOrder(0x8000_0000, x);
    }
  }

  lemma {:induction false} SmearedBounds(x: bv32)
    ensures var r := RoundUp32(x);
            if NoRoom(x) then r == 0 else OneBit(r) && AtMost(x, r) && AtMost(Half(r), x) && Half(r) != x
  {
    RoundUp32IsNextPow2(x);
  }

  /** The smeared form gives the number that `RoundUp` gives. */
  lemma {:induction false} RoundUp32IsRoundUp(x: bv32)
    ensures Value(RoundUp32(x)) == RoundUp(Value(x))
  {
    hide OneBit, AtMost, Half, Odd, NoRoom, RoundUp32, Value;
    NoRoomValue(x);
    SmearedBounds(x);
    ValueOfZero();
    if !NoRoom(x) {
      var r := RoundUp32(x);
      OneBitIsPow2(r);
      ValueOrder(x, r);
      ValueOrder(Half(r), x);
      ValueHalves(r);
      NextPow2Unique(Value(x), Value(r));
    }
  }

  // ----- masks

  function Both(x: bv32, y: bv32): bv32 {
    x & y
  }

  function LessOne(n: bv32): bv32 {
    n - 1
  }

  lemma {:induction false} LessOneHalf(n: bv32)
    requires n != 0 && !Odd(n)
    ensures Half(LessOne(n)) == LessOne(Half(n)) && Odd(LessOne(n))
  {
  }

  lemma {:induction false} LessOneOfOdd(n: bv32)
    requires OneBit(n) && Odd(n)
    ensures LessOne(n) == 0
  {
  }

  lemma {:induction false} BothHalf(x: bv32, y: bv32)
    ensures Half(Both(x, y)) == Both(Half(x), Half(y))
  {
  }

  lemma {:induction false} BothOdd(x: bv32, y: bv32)
    requires Odd(y)
    ensures Odd(Both(x, y)) <==> Odd(x)
  {
  }

  lemma {:induction false} BothZero(x: bv32)
    ensures Both(x, 0) == 0
  {
  }

  lemma {:induction false} HalfRemainder(h: nat, m: nat, odd: nat)
    requires m > 0 && odd < 2
    ensures (2 * h + odd) % (2 * m) == 2 * (h % m) + odd
  {
    assert 2 * h + odd == (2 * m) * (h / m) + (2 * (h % m) + odd) by {
      assert h == m * (h / m) + h % m;
    }
    RemainderUnique(2 * m, 2 * h + odd, h / m, 2 * (h % m) + odd);
  }

  lemma {:induction false} OneBitPositive(n: bv32)
    requires OneBit(n)
    ensures Value(n) > 0
  {
    OneBitIsPow2(n);
  }

  /** The bit mask `x & (n - 1)` is `Mask` on the numbers, for a power of two `n`. */
  lemma {:induction false} MaskIsRemainder(x: bv32, n: bv32)
    requires OneBit(n)
    ensures Value(n) > 0 && Value(Both(x, LessOne(n))) == Mask(Value(x), Value(n))
    decreases n
  {
    HalfIsLess(n);
    OneBitHalf(n);
    OneBitPositive(n);
    BothHalf(x, LessOne(n));
    if Odd(n) {
      LessOneOfOdd(n);
      BothZero(x);
    } else {
      LessOneHalf(n);
      BothOdd(x, LessOne(n));
    }
    ValueHalves(n);
    ValueHalves(x);
    ValueOfZero();
    hide OneBit, Half, Odd, Value, Both, LessOne;
    if Odd(n) {
      assert Value(n) == 1;
    } else {
      MaskIsRemainder(Half(x), Half(n));
      ValueHalves(Both(x, LessOne(n)));
      HalfRemainder(Value(Half(x)), Value(Half(n)), if Odd(x) then 1 else 0);
    }
  }
}
