/** Hexadecimal identifiers to bytes. */
module Hex {

  type Byte = x: int | 0 <= x < 256

  /** The digit table: -1 for a character that is no hexadecimal digit. */
  function HexToInt(c: char): (v: int)
    ensures -1 <= v < 16
  {
    if '0' <= c <= '9' then c as int - '0' as int
    else if 'a' <= c <= 'f' then c as int - 'a' as int + 10
    else if 'A' <= c <= 'F' then c as int - 'A' as int + 10
    else -1
  }

  const LOWER := "0123456789abcdef"
  const UPPER := "0123456789ABCDEF"

  /** The table has the value of each digit in either case, and -1 for every other character. */
  lemma {:induction false} HexToIntIs(c: char)
    ensures forall v :: 0 <= v < 16 ==> HexToInt(LOWER[v]) == v && HexToInt(UPPER[v]) == v
    ensures c !in LOWER && c !in UPPER ==> HexToInt(c) == -1
  {
    var v := HexToInt(c);
    assert v >= 0 ==> c == LOWER[v] || c == UPPER[v];
  }

  /** `(uint8_t)((a << 4) | b)` on signed table entries. */
  function Combine(a: int, b: int): Byte
    requires -1 <= a < 16 && -1 <= b < 16
  {
    if b < 0 then 255 else if a < 0 then 240 + b else 16 * a + b
  }

  function ToByte(a: int): Byte
    requires -1 <= a < 16
  {
    if a < 0 then 255 else a
  }

  /** The bytes written for `hex`, pair by pair from the left, a last single digit making a byte of its own. */
  function Pairs(hex: string): (b: seq<Byte>)
    ensures |b| == (|hex| + 1) / 2
  {
    if |hex| == 0 then []
    else if |hex| == 1 then [ToByte(HexToInt(hex[0]))]
    else [Combine(HexToInt(hex[0]), HexToInt(hex[1]))] + Pairs(hex[2..])
  }

  function Zeros(n: nat): (z: seq<Byte>)
    ensures |z| == n && forall i :: 0 <= i < n ==> z[i] == 0
  {
    seq(n, i => 0)
  }

  function Decoded(hex: string, size: nat): seq<Byte>
    requires |hex| <= 2 * size
  {
    Zeros(size - (|hex| + 1) / 2) + Pairs(hex)
  }

  lemma {:induction false} PairsAppend(a: string, b: string)
    requires |a| % 2 == 0
    ensures Pairs(a + b) == Pairs(a) + Pairs(b)
  {
    if a == [] {
      assert a + b == b;
    } else {
      assert (a + b)[2..] == a[2..] + b;
      PairsAppend(a[2..], b);
      hide Combine, HexToInt, ToByte;
    }
  }

  method HexToBinary(hex: string, buffer: array<Byte>) returns (ok: bool)
    modifies buffer
    ensures ok == (|hex| <= 2 * buffer.Length)
    ensures buffer[..] == if ok then Decoded(hex, buffer.Length) else Zeros(buffer.Length)
  {
    hide Pairs, Zeros, Combine, HexToInt;
    var n := buffer.Length;
    Clear(buffer);
    if |hex| > n * 2 {
      return false;
    }
    var start := n - (|hex| + 1) / 2;
    var pos := start;
    var last := |hex| - 1;
    var i := 0;
    NothingWritten(hex, n, start);
    while i < last
      invariant 0 <= i <= |hex| && i % 2 == 0 && pos == start + i / 2
      invariant buffer[..] == Zeros(start) + Pairs(hex[..i]) + Zeros(n - pos)
    {
      StepPair(hex, i);
      WriteByte(start, Pairs(hex[..i]), n - pos, Combine(HexToInt(hex[i]), HexToInt(hex[i + 1])));
      buffer[pos] := Combine(HexToInt(hex[i]), HexToInt(hex[i + 1]));
      pos := pos + 1;
      i := i + 2;
    }
    if i == last {
      LastDigit(hex, i);
      WriteByte(start, Pairs(hex[..i]), n - pos, ToByte(HexToInt(hex[i])));
      buffer[pos] := ToByte(HexToInt(hex[i]));
      pos := pos + 1;
    } else {
      assert hex[..i] == hex;
    }
    NothingLeft(start, Pairs(hex));
    ok := true;
  }

  /** `memset` to zero. */
  method Clear(buffer: array<Byte>)
    modifies buffer
    ensures buffer[..] == Zeros(buffer.Length)
  {
    forall k | 0 <= k < buffer.Length {
      buffer[k] := 0;
    }
  }

  lemma {:induction false} NothingWritten(hex: string, n: nat, start: nat)
    requires start <= n
    ensures Zeros(n) == Zeros(start) + Pairs(hex[..0]) + Zeros(n - start)
  {
  }

  lemma {:induction false} NothingLeft(start: nat, bytes: seq<Byte>)
    ensures Zeros(start) + bytes + Zeros(0) == Zeros(start) + bytes
  {
  }

  lemma {:induction false} WriteByte(start: nat, written: seq<Byte>, left: nat, x: Byte)
    requires left > 0
    ensures (Zeros(start) + written + Zeros(left))[start + |written| := x] ==
        Zeros(start) + (written + [x]) + Zeros(left - 1)
  {
  }

  lemma {:induction false} LastDigit(hex: string, i: nat)
    requires i % 2 == 0 && i + 1 == |hex|
    ensures Pairs(hex) == Pairs(hex[..i]) + [ToByte(HexToInt(hex[i]))]
  {
    assert hex == hex[..i] + hex[i..];
    PairsAppend(hex[..i], hex[i..]);
  }

  lemma {:induction false} StepPair(hex: string, i: nat)
    requires i % 2 == 0 && i + 1 < |hex|
    ensures Pairs(hex[..i + 2]) == Pairs(hex[..i]) + [Combine(HexToInt(hex[i]), HexToInt(hex[i + 1]))]
  {
    assert hex[..i + 2] == hex[..i] + hex[i..i + 2];
    PairsAppend(hex[..i], hex[i..i + 2]);
  }

  /** Every byte of the buffer: zero before the digits; then the low four bits of a pair's two table entries, where
      -1 has all bits set and so sets the high ones too; and the last single entry as a byte. */
  lemma {:induction false} DecodedAt(hex: string, size: nat, k: nat)
    requires |hex| <= 2 * size && k < size
    ensures var start := size - (|hex| + 1) / 2;
            var i, b := 2 * (k - start), Decoded(hex, size)[k];
            if k < start then b == 0
            else if i + 1 < |hex| then
              var high, low := HexToInt(hex[i]), HexToInt(hex[i + 1]);
              b / 16 == (if low == -1 then 15 else high % 16) && b % 16 == low % 16
            else b == HexToInt(hex[i]) % 256
  {
    var start := size - (|hex| + 1) / 2;
    if k >= start {
      PairsAt(hex, k - start);
      hide Pairs, HexToInt, Combine, ToByte;
      assert Decoded(hex, size)[k] == Pairs(hex)[k - start];
      var i := 2 * (k - start);
      if i + 1 < |hex| {
        CombineNibbles(HexToInt(hex[i]), HexToInt(hex[i + 1]));
      } else {
        ToByteIs(HexToInt(hex[i]));
      }
    }
  }

  lemma {:induction false} CombineNibbles(high: int, low: int)
    requires -1 <= high < 16 && -1 <= low < 16
    ensures Combine(high, low) / 16 == (if low == -1 then 15 else high % 16) && Combine(high, low) % 16 == low % 16
  {
  }

  lemma {:induction false} ToByteIs(a: int)
    requires -1 <= a < 16
    ensures ToByte(a) == a % 256
  {
  }

  lemma {:induction false} PairsAt(hex: string, j: nat)
    requires j < (|hex| + 1) / 2
    ensures Pairs(hex)[j] == if 2 * j + 1 < |hex| then Combine(HexToInt(hex[2 * j]), HexToInt(hex[2 * j + 1]))
                             else ToByte(HexToInt(hex[2 * j]))
  {
    hide Combine, HexToInt, ToByte;
    if j > 0 {
      PairsAt(hex[2..], j - 1);
    }
  }

  // ----- encoding back

  function Nibble(v: int): char
    requires 0 <= v < 16
  {
    if v < 10 then '0' + v as char else 'a' + (v - 10) as char
  }

  /** `Buffer.toString('hex')`. */
  function Encode(bytes: seq<Byte>): string {
    if bytes == [] then [] else [Nibble(bytes[0] / 16), Nibble(bytes[0] % 16)] + Encode(bytes[1..])
  }

  predicate LowercaseHex(hex: string) {
    forall i :: 0 <= i < |hex| ==> '0' <= hex[i] <= '9' || 'a' <= hex[i] <= 'f'
  }

  lemma {:induction false} NibblesBack(c: char, d: char)
    requires ('0' <= c <= '9' || 'a' <= c <= 'f') && ('0' <= d <= '9' || 'a' <= d <= 'f')
    ensures var b := Combine(HexToInt(c), HexToInt(d)); Nibble(b / 16) == c && Nibble(b % 16) == d
  {
  }

  /** Lowercase hex that fills the buffer exactly comes back unchanged. */
  lemma {:induction false} RoundTrip(hex: string, size: nat)
    requires LowercaseHex(hex) && |hex| == 2 * size
    ensures Encode(Decoded(hex, size)) == hex
    decreases size
  {
    assert Zeros(0) + Pairs(hex) == Pairs(hex);
    if size > 0 {
      RoundTrip(hex[2..], size - 1);
      assert Zeros(0) + Pairs(hex[2..]) == Pairs(hex[2..]);
      assert hex == [hex[0], hex[1]] + hex[2..];
      NibblesBack(hex[0], hex[1]);
      hide Combine, HexToInt, Nibble;
    }
  }

  // ----- the number a string denotes

  predicate AllHex(hex: string) {
    forall i :: 0 <= i < |hex| ==> HexToInt(hex[i]) >= 0
  }

  predicate AllZero(hex: string) {
    forall i :: 0 <= i < |hex| ==> hex[i] == '0'
  }

  function HexValue(hex: string): int {
    if hex == [] then 0 else 16 * HexValue(hex[..|hex| - 1]) + HexToInt(hex[|hex| - 1])
  }

  function BigEndian(bytes: seq<Byte>): nat {
    if bytes == [] then 0 else 256 * BigEndian(bytes[..|bytes| - 1]) + bytes[|bytes| - 1]
  }

  lemma {:induction false} LeadingZeros(n: nat, bytes: seq<Byte>)
    ensures BigEndian(Zeros(n) + bytes) == BigEndian(bytes)
    decreases n + |bytes|
  {
    var all := Zeros(n) + bytes;
    if bytes != [] {
      assert all[..|all| - 1] == Zeros(n) + bytes[..|bytes| - 1];
      LeadingZeros(n, bytes[..|bytes| - 1]);
    } else if n > 0 {
      assert all[..|all| - 1] == Zeros(n - 1) + [];
      LeadingZeros(n - 1, []);
    }
  }

  lemma {:induction false} EvenPairsValue(hex: string)
    requires AllHex(hex) && |hex| % 2 == 0
    ensures BigEndian(Pairs(hex)) == HexValue(hex)
    decreases |hex|
  {
    hide Pairs, HexValue, BigEndian, Combine;
    if hex == [] {
      NoDigits();
    } else {
      var n := |hex| - 2;
      assert hex == hex[..n] + hex[n..];
      EvenPairsValue(hex[..n]);
      StepPair(hex, n);
      assert hex[..n + 2] == hex;
      assert hex[n] in hex && hex[n + 1] in hex;
      LastByte(Pairs(hex[..n]), Combine(HexToInt(hex[n]), HexToInt(hex[n + 1])));
      LastTwoDigits(hex);
      PairOfDigits(HexToInt(hex[n]), HexToInt(hex[n + 1]));
    }
  }

  lemma {:induction false} NoDigits()
    ensures BigEndian(Pairs("")) == HexValue("")
  {
  }

  lemma {:induction false} LastByte(bytes: seq<Byte>, x: Byte)
    ensures BigEndian(bytes + [x]) == 256 * BigEndian(bytes) + x
  {
    assert (bytes + [x])[..|bytes|] == bytes;
  }

  lemma {:induction false} LastTwoDigits(hex: string)
    requires |hex| >= 2
    ensures var n := |hex| - 2;
            HexValue(hex) == 256 * HexValue(hex[..n]) + 16 * HexToInt(hex[n]) + HexToInt(hex[n + 1])
  {
    var n := |hex| - 2;
    assert hex[..n + 1][..n] == hex[..n];
  }

  lemma {:induction false} PairOfDigits(a: int, b: int)
    requires 0 <= a < 16 && 0 <= b < 16
    ensures Combine(a, b) == 16 * a + b
  {
  }

  lemma {:induction false} ZeroValue(hex: string)
    requires AllHex(hex)
    ensures HexValue(hex) >= 0
    ensures HexValue(hex) == 0 <==> AllZero(hex)
  {
    if hex != [] {
      var front := hex[..|hex| - 1];
      ZeroValue(front);
      if AllZero(front) && hex[|hex| - 1] == '0' {
        assert AllZero(hex);
      }
      if AllZero(hex) {
        assert AllZero(front);
      }
    }
  }

  /** The buffer holds the number the digits denote exactly when their count is even, or all but the last are zero. */
  lemma {:induction false} BigEndianIff(hex: string, size: nat)
    requires AllHex(hex) && |hex| <= 2 * size
    ensures BigEndian(Decoded(hex, size)) == HexValue(hex)
            <==> |hex| % 2 == 0 || AllZero(hex[..|hex| - 1])
  {
    LeadingZeros(size - (|hex| + 1) / 2, Pairs(hex));
    hide Pairs, Zeros;
    if |hex| % 2 == 0 {
      EvenPairsValue(hex);
    } else {
      OddPairsValue(hex);
      ZeroValue(hex[..|hex| - 1]);
    }
  }

  /** The string "100" in two bytes: the number is 256, the bytes say 4096. */
  lemma {:induction false} OddExample()
    ensures AllHex("100") && HexValue("100") == 256 && BigEndian(Decoded("100", 2)) == 4096
  {
    var hex := "100";
    assert hex[..2] == "10" && "10"[..1] == "1" && "1"[..0] == "";
    LeadingZeros(0, Pairs(hex));
    OddPairsValue(hex);
  }

  /** In an odd string the last digit takes a whole byte, which shifts the others by four bits too many. */
  lemma {:induction false} OddPairsValue(hex: string)
    requires AllHex(hex) && |hex| % 2 == 1
    ensures BigEndian(Pairs(hex)) == 256 * HexValue(hex[..|hex| - 1]) + HexToInt(hex[|hex| - 1])
    ensures HexValue(hex) == 16 * HexValue(hex[..|hex| - 1]) + HexToInt(hex[|hex| - 1])
  {
    var n := |hex| - 1;
    LastDigit(hex, n);
    EvenPairsValue(hex[..n]);
    hide Pairs;
    var p := Pairs(hex);
    assert p[..|p| - 1] == Pairs(hex[..n]);
  }
}
