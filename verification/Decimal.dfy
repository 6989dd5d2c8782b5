/** Decimal printing of 64-bit integers. */
module Decimal {

  function Digit(d: nat): (c: char)
    requires d < 10
    ensures '0' <= c <= '9'
  {
    '0' + d as char
  }

  function DigitValue(c: char): int {
    c as int - '0' as int
  }

  function Digits(n: nat): (s: string)
    ensures s != []
  {
    if n < 10 then [Digit(n)] else Digits(n / 10) + [Digit(n % 10)]
  }

  function Print(v: int): string {
    if v < 0 then "-" + Digits(-v) else Digits(v)
  }

  function ParseDigits(s: string): int {
    if s == [] then 0 else 10 * ParseDigits(s[..|s| - 1]) + DigitValue(s[|s| - 1])
  }

  function Parse(s: string): int {
    if s != [] && s[0] == '-' then -ParseDigits(s[1..]) else ParseDigits(s)
  }

  lemma {:induction false} ParseOfDigits(n: nat)
    ensures ParseDigits(Digits(n)) == n
    ensures forall c :: c in Digits(n) ==> '0' <= c <= '9'
  {
    if n >= 10 {
      ParseOfDigits(n / 10);
      var s := Digits(n);
      assert s[..|s| - 1] == Digits(n / 10);
    }
  }

  /** Parsing what was printed gives the number back. */
  lemma {:induction false} ParseOfPrint(v: int)
    ensures Parse(Print(v)) == v
    ensures ':' !in Print(v)
  {
    ParseOfDigits(if v < 0 then -v else v);
    if v >= 0 {
      assert Digits(v)[0] in Digits(v);
    }
  }

  /** No digit is written that is not needed. */
  lemma {:induction false} NoLeadingZero(n: nat)
    ensures n > 0 ==> Digits(n)[0] != '0'
    ensures Digits(0) == "0"
  {
    if n >= 10 {
      NoLeadingZero(n / 10);
    }
  }

  lemma {:induction false} PrintInjective(v: int, w: int)
    requires Print(v) == Print(w)
    ensures v == w
  {
    ParseOfPrint(v);
    ParseOfPrint(w);
  }

  function Pow10(k: nat): nat {
    if k == 0 then 1 else 10 * Pow10(k - 1)
  }

  lemma {:induction false} DigitsShort(n: nat, k: nat)
    requires 0 < k && n < Pow10(k)
    ensures |Digits(n)| <= k
  {
    if n >= 10 {
      DigitsShort(n / 10, k - 1);
    }
  }

  const MIN_INT64 := -0x8000_0000_0000_0000
  const MAX_INT64 := 0x7fff_ffff_ffff_ffff

  /** At most 20 characters, sign included, for every int64. */
  lemma {:induction false} PrintFits(v: int)
    requires MIN_INT64 <= v <= MAX_INT64
    ensures |Print(v)| <= 20
  {
    assert Pow10(5) == 100_000;
    assert Pow10(10) == 10_000_000_000;
    assert Pow10(15) == 1_000_000_000_000_000;
    assert Pow10(19) == 10_000_000_000_000_000_000;
    DigitsShort(if v < 0 then -v else v, 19);
  }

  function Reversed(s: string): (r: string)
    ensures |r| == |s|
    ensures forall k :: 0 <= k < |s| ==> r[k] == s[|s| - 1 - k]
  {
    seq(|s|, k requires 0 <= k < |s| => s[|s| - 1 - k])
  }

  /** `s` with the cells of `lo .. hi` swapped end for end, except for those from `b` up to `e`. */
  function Mirrored(s: string, lo: nat, hi: int, b: int, e: int): (r: string)
    requires -1 <= hi < |s|
    ensures |r| == |s|
  {
    seq(|s|, k requires 0 <= k < |s| =>
      if (lo <= k < b || e < k <= hi) && 0 <= lo + hi - k < |s| then s[lo + hi - k] else s[k])
  }

  lemma {:induction false} MirrorStep(s: string, lo: nat, hi: int, b: int, e: int)
    requires -1 <= hi < |s| && lo <= b < e <= hi && b - lo == hi - e
    ensures var r := Mirrored(s, lo, hi, b, e);
            Mirrored(s, lo, hi, b + 1, e - 1) == r[e := r[b]][b := r[e]]
  {
  }

  lemma {:induction false} MirrorStart(s: string, lo: nat, hi: int)
    requires -1 <= hi < |s|
    ensures Mirrored(s, lo, hi, lo, hi) == s
  {
  }

  lemma {:induction false} MirrorDone(s: string, lo: nat, hi: int, b: int, e: int)
    requires -1 <= hi < |s| && lo <= hi + 1 && b - lo == hi - e && b <= e + 1 && !(e > b)
    ensures var r := Mirrored(s, lo, hi, b, e);
            r[lo..hi + 1] == Reversed(s[lo..hi + 1]) && r[..lo] == s[..lo] && r[hi + 1..] == s[hi + 1..]
  {
  }

  /** `strreverse` on the cells from `begin` to `end`. */
  method StrReverse(a: array<char>, begin: nat, end: int)
    requires -1 <= end < a.Length && begin <= end + 1
    modifies a
    ensures a[begin..end + 1] == Reversed(old(a[begin..end + 1]))
    ensures a[..begin] == old(a[..begin]) && a[end + 1..] == old(a[end + 1..])
  {
    hide Mirrored, Reversed;
    ghost var was := a[..];
    var b, e := begin, end;
    MirrorStart(was, begin, end);
    while e > b
      invariant begin <= b <= e + 1 <= end + 1 && b - begin == end - e
      invariant a[..] == Mirrored(was, begin, end, b, e)
    {
      MirrorStep(was, begin, end, b, e);
      ghost var now := a[..];
      var aux := a[e];
      a[e] := a[b];
      a[b] := aux;
      assert a[..] == now[e := now[b]][b := now[e]];
      b, e := b + 1, e - 1;
    }
    MirrorDone(was, begin, end, b, e);
  }

  /** One digit: what is still to be written, and what has been, in reverse. */
  lemma {:induction false} OneMoreDigit(u: nat, written: string)
    ensures Digits(u) + Reversed(written) ==
            (if u / 10 > 0 then Digits(u / 10) else "") + Reversed(written + [Digit(u % 10)])
  {
    assert Reversed(written + [Digit(u % 10)]) == [Digit(u % 10)] + Reversed(written);
  }

  /** The digit loop: the digits of `value`, last one first. */
  method WriteDigits(value: nat, str: array<char>) returns (w: nat)
    requires |Digits(value)| < str.Length
    modifies str
    ensures w == |Digits(value)| && Reversed(str[..w]) == Digits(value)
  {
    hide Digits, Reversed;
    ghost var all := Digits(value);
    var uvalue := value;
    w := 0;
    NothingReversed(all);
    while true
      invariant w < |all| && Digits(uvalue) + Reversed(str[..w]) == all
      decreases uvalue
    {
      ghost var written := str[..w];
      OneMoreDigit(uvalue, written);
      str[w] := Digit(uvalue % 10);
      assert str[..w + 1] == written + [Digit(uvalue % 10)];
      w := w + 1;
      uvalue := uvalue / 10;
      if uvalue == 0 {
        break;
      }
    }
  }

  lemma {:induction false} NothingReversed(all: string)
    ensures Reversed("") == "" && all + "" == all
  {
  }

  /** `modp_litoa10`; the minimum is excluded because its negation overflows. */
  method Litoa10(value: int, str: array<char>) returns (len: nat)
    requires MIN_INT64 < value <= MAX_INT64 && str.Length >= 21
    modifies str
    ensures len <= 20 && str[..len] == Print(value) && str[len] == '\0'
  {
    hide Digits, Reversed, Print;
    PrintFits(value);
    PrintIs(value);
    var uvalue := if value < 0 then -value else value;
    var w := WriteDigits(uvalue, str);
    ghost var digits := str[..w];
    SignLast(digits);
    if value < 0 {
      str[w] := '-';
      w := w + 1;
      assert str[..w] == digits + "-";
    }
    str[w] := '\0';
    ghost var before := str[..w];
    assert before == if value < 0 then digits + "-" else digits;
    StrReverse(str, 0, w - 1);
    len := w;
  }

  lemma {:induction false} PrintIs(v: int)
    ensures Print(v) == if v < 0 then "-" + Digits(-v) else Digits(v)
  {
  }

  /** The sign is written last, so the reversal puts it first. */
  lemma {:induction false} SignLast(digits: string)
    ensures Reversed(digits + "-") == "-" + Reversed(digits)
  {
  }
}
