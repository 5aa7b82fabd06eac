/** Number printing: digits generated backwards into a buffer and reversed in place. */
module Numbers {
  import opened Basics

  // ---------------------------------------------------------------- digits and values

  /** The character of a digit: '0'..'9', then 'A'..'Z'. */
  function Digit(d: nat): byte
    requires d < 36
  {
    if d < 10 then (48 + d) as byte else (55 + d) as byte
  }

  const LOOKUP: string := "0123456789ABCDEFGHIJKLMNOPQRSTUVWXYZ"

  /** The digits are those of the table, in its order. */
  lemma DigitIsLookup(d: nat)
    requires d < 36
    ensures |LOOKUP| == 36 && Digit(d) as int == LOOKUP[d] as int && DigitValue(Digit(d)) == d
  {
  }

  /** The digit a character stands for. */
  function DigitValue(c: byte): int {
    if 48 <= c <= 57 then c as int - 48 else if 65 <= c <= 90 then c as int - 55 else -1
  }

  /** The number a digit string denotes, read from the left. */
  function Value(s: seq<byte>, radix: nat): int {
    if s == [] then 0 else Value(s[..|s| - 1], radix) * radix + DigitValue(s[|s| - 1])
  }

  /** A numeral of the radix: only its digits, and no leading zero unless it is "0". */
  predicate IsNumeral(s: seq<byte>, radix: nat) {
    && s != [] && (forall i | 0 <= i < |s| :: 0 <= DigitValue(s[i]) < radix)
    && (|s| > 1 ==> DigitValue(s[0]) != 0)
  }

  /** The digits of `v`, lowest first: what the loop of `itoa` writes. */
  function LowFirst(v: nat, radix: nat): seq<byte>
    requires 2 <= radix <= 36
    decreases v
  {
    if v == 0 then [] else Halves(v, radix); [Digit(v % radix)] + LowFirst(v / radix, radix)
  }

  function Reversed(s: seq<byte>): (r: seq<byte>)
    ensures |r| == |s|
  {
    if s == [] then [] else Reversed(s[1..]) + [s[0]]
  }

  lemma {:induction false} ReversedAt(s: seq<byte>, i: nat)
    requires i < |s|
    ensures Reversed(s)[i] == s[|s| - 1 - i]
  {
    if i < |s| - 1 { ReversedAt(s[1..], i); }
  }

  /** Dividing by a radix shrinks a positive number and leaves a digit. */
  lemma Halves(v: nat, radix: nat)
    requires v > 0 && radix >= 2
    ensures 0 <= v / radix < v && 0 <= v % radix < radix && v == v / radix * radix + v % radix
  {
  }

  /** The number that `itoa` prints: its digits, highest first. */
  function Numeral(v: nat, radix: nat): seq<byte>
    requires 2 <= radix <= 36
  {
    if v == 0 then [48] else Reversed(LowFirst(v, radix))
  }

  /** Appending a digit to a digit string. */
  lemma AppendedDigit(t: seq<byte>, d: nat, radix: nat)
    requires d < radix <= 36 && (t == [] ==> d > 0) && (t != [] ==> IsNumeral(t, radix) && Value(t, radix) > 0)
    ensures Value(t + [Digit(d)], radix) == Value(t, radix) * radix + d
    ensures IsNumeral(t + [Digit(d)], radix)
  {
    var s := t + [Digit(d)];
    assert s[..|s| - 1] == t;
    if t != [] {
      assert forall i | 0 <= i < |t| :: s[i] == t[i];
      FirstDigit(t, radix);
    }
  }

  lemma FirstDigit(t: seq<byte>, radix: nat)
    requires IsNumeral(t, radix) && Value(t, radix) > 0
    ensures DigitValue(t[0]) != 0
  {
    if |t| == 1 { assert t[..0] == [] && Value([], radix) == 0; }
  }

  lemma {:induction false} ReversedDigits(v: nat, radix: nat)
    requires v > 0 && 2 <= radix <= 36
    ensures var s := Reversed(LowFirst(v, radix));
            Value(s, radix) == v && IsNumeral(s, radix)
    decreases v
  {
    hide Value, IsNumeral, DigitValue, Digit;
    Halves(v, radix);
    var last, rest := Digit(v % radix), LowFirst(v / radix, radix);
    assert ([last] + rest)[1..] == rest;
    assert Reversed(LowFirst(v, radix)) == Reversed(rest) + [last];
    NoDigits(radix);
    if v / radix > 0 { ReversedDigits(v / radix, radix); }
    AppendedDigit(Reversed(rest), v % radix, radix);
  }

  lemma NoDigits(radix: nat)
    requires 2 <= radix <= 36
    ensures Value([], radix) == 0 && LowFirst(0, radix) == [] && Reversed([]) == []
  {
  }

  /** Reading the numeral back gives the number, in every radix; and it has no leading zero. */
  lemma NumeralRoundTrip(v: nat, radix: nat)
    requires 2 <= radix <= 36
    ensures Value(Numeral(v, radix), radix) == v && IsNumeral(Numeral(v, radix), radix)
  {
    if v > 0 { ReversedDigits(v, radix); } else { assert [48][..0] == []; assert Value([], radix) == 0; }
  }

  /** And it is the only numeral that does: printing what a numeral denotes gives it back. */
  lemma {:induction false} NumeralIsUnique(s: seq<byte>, radix: nat)
    requires 2 <= radix <= 36 && IsNumeral(s, radix)
    ensures Value(s, radix) >= 0 && Numeral(Value(s, radix), radix) == s
    ensures Value(s, radix) == 0 ==> s == [48]
    decreases |s|
  {
    hide Value, Numeral, Digit;
    var front, d := s[..|s| - 1], DigitValue(s[|s| - 1]);
    LastDigit(s, radix);
    if front == [] {
      Shifted(0, d, radix);
    } else {
      assert IsNumeral(front, radix) by { assert forall i | 0 <= i < |front| :: front[i] == s[i]; }
      NumeralIsUnique(front, radix);
      Shifted(Value(front, radix), d, radix);
    }
  }

  lemma LastDigit(s: seq<byte>, radix: nat)
    requires IsNumeral(s, radix) && 2 <= radix <= 36
    ensures var front, d := s[..|s| - 1], DigitValue(s[|s| - 1]);
            && 0 <= d < radix && s == front + [Digit(d)] && Value(s, radix) == Value(front, radix) * radix + d
            && (front == [] ==> Value(s, radix) == d && s == [Digit(d)])
  {
    hide IsNumeral, Value, Digit, DigitValue;
    LastOf(s, radix);
    Unfolded(s, radix);
    NoDigits(radix);
  }

  lemma LastOf(s: seq<byte>, radix: nat)
    requires IsNumeral(s, radix) && radix <= 36
    ensures s != [] && 0 <= DigitValue(s[|s| - 1]) < radix && Digit(DigitValue(s[|s| - 1])) == s[|s| - 1]
  {
    hide Value;
  }

  lemma Unfolded(s: seq<byte>, radix: nat)
    requires s != []
    ensures Value(s, radix) == Value(s[..|s| - 1], radix) * radix + DigitValue(s[|s| - 1])
  {
  }

  /** Appending a digit to a positive number's numeral multiplies the number by the radix and adds the digit. */
  lemma Shifted(v: nat, d: nat, radix: nat)
    requires 2 <= radix <= 36 && d < radix
    ensures v * radix + d >= 0 && (v > 0 ==> v * radix + d > 0)
    ensures v > 0 ==> Numeral(v * radix + d, radix) == Numeral(v, radix) + [Digit(d)]
    ensures v == 0 ==> Numeral(d, radix) == [Digit(d)]
  {
    if v > 0 {
      DivMod(v, d, radix);
      AppendDigit(v * radix + d, v, d, radix);
    } else {
      DivMod(0, d, radix);
      if d > 0 {
        assert d / radix == 0 && d % radix == d;
        assert LowFirst(0, radix) == [];
        assert LowFirst(d, radix) == [Digit(d)];
        assert [Digit(d)][1..] == [] && Reversed([]) == [];
      }
    }
  }

  lemma AppendDigit(w: nat, v: nat, d: nat, radix: nat)
    requires 2 <= radix <= 36 && d < radix && v > 0 && w > 0 && w / radix == v && w % radix == d
    ensures Numeral(w, radix) == Numeral(v, radix) + [Digit(d)]
  {
    var low := LowFirst(w, radix);
    assert low == [Digit(d)] + LowFirst(v, radix);
    assert low[1..] == LowFirst(v, radix);
  }

  lemma DivMod(v: nat, d: nat, radix: nat)
    requires 2 <= radix && d < radix
    ensures var w := v * radix + d;
            w >= 0 && (v > 0 ==> w > 0) && w / radix == v && w % radix == d
  {
    var w := v * radix + d;
    Scales(1, radix, v);
    var q, r := w / radix, w % radix;
    calc {
      (v - q) * radix;
      v * radix - q * radix;
      r - d;
    }
    Between(v - q, radix);
  }

  lemma Between(a: int, m: int)
    requires m > 0 && -m < a * m < m
    ensures a == 0
  {
    assert a >= 1 ==> a * m >= m;
    assert a <= -1 ==> a * m <= -m;
  }

  function Power(radix: nat, k: nat): nat { if k == 0 then 1 else radix * Power(radix, k - 1) }

  /** A number below the k-th power of the radix has at most k digits. */
  lemma {:induction false} LengthBound(v: nat, radix: nat, k: nat)
    requires 2 <= radix <= 36 && v < Power(radix, k)
    ensures |LowFirst(v, radix)| <= k
    decreases v
  {
    if v > 0 {
      Halves(v, radix);
      assert k > 0;
      if v / radix >= Power(radix, k - 1) { Scales(Power(radix, k - 1), v / radix, radix); }
      LengthBound(v / radix, radix, k - 1);
    }
  }

  lemma Scales(a: nat, b: nat, radix: nat)
    requires a <= b
    ensures radix * a <= b * radix && a * radix <= radix * b
  {
  }

  lemma HexLength(v: nat)
    requires v < TWO_32
    ensures |Numeral(v, 16)| <= 8
  {
    assert Power(16, 4) == 65536;
    assert Power(16, 8) == 16 * (16 * (16 * (16 * Power(16, 4))));
    LengthBound(v, 16, 8);
  }

  // ---------------------------------------------------------------- the buffer routines

  /** `strlen(buf + at)`. */
  method StrLen(buf: array<byte>, at: nat, ghost end: nat) returns (len: nat)
    requires at <= end < buf.Length && buf[end] == NUL && forall k | at <= k < end :: buf[k] != NUL
    ensures len == end - at
  {
    len := 0;
    while buf[at + len] != NUL
      invariant 0 <= len <= end - at
      decreases end - at - len
    {
      len := len + 1;
    }
  }

  lemma MirrorIsReversed(s: seq<byte>, r: seq<byte>)
    requires |r| == |s| && forall i | 0 <= i < |s| :: r[i] == s[|s| - 1 - i]
    ensures r == Reversed(s)
  {
    forall i | 0 <= i < |s| ensures r[i] == Reversed(s)[i] { ReversedAt(s, i); }
  }

  /** `strrev(buf + at)`: the string is reversed in place. */
  method StrRev(buf: array<byte>, at: nat, ghost end: nat)
    requires at <= end < buf.Length && buf[end] == NUL && forall k | at <= k < end :: buf[k] != NUL
    modifies buf
    ensures buf[at..end] == Reversed(old(buf[at..end]))
    ensures forall k | 0 <= k < buf.Length && !(at <= k < end) :: buf[k] == old(buf[k])
  {
    hide Reversed;
    ghost var was := buf[..];
    var n := StrLen(buf, at, end);
    var beg, last := at, at + n - 1;
    while beg < last
      invariant at <= beg && beg + last == at + end - 1 && beg <= last + 1
      invariant forall k | at <= k < beg :: buf[k] == was[at + end - 1 - k]
      invariant forall k | last < k < end :: buf[k] == was[at + end - 1 - k]
      invariant forall k | 0 <= k < buf.Length && !(at <= k < beg) && !(last < k < end) :: buf[k] == was[k]
    {
      var tmp := buf[last];
      buf[last] := buf[beg];
      buf[beg] := tmp;
      beg := beg + 1;
      last := last - 1;
    }
    MirrorIsReversed(was[at..end], buf[at..end]);
  }

  lemma LowFirstStep(v: nat, radix: nat)
    requires 2 <= radix <= 36
    ensures v == 0 ==> LowFirst(v, radix) == []
    ensures v > 0 ==> 0 <= v / radix < v && 0 <= v % radix < radix
                      && LowFirst(v, radix) == [Digit(v % radix)] + LowFirst(v / radix, radix)
  {
    if v > 0 { Halves(v, radix); }
  }

  /** The loop of `itoa`: digits are written from the lowest up. */
  method WriteDigits(value: nat, buf: array<byte>, at: nat, radix: nat) returns (end: nat)
    requires 2 <= radix <= 36 && at + |LowFirst(value, radix)| < buf.Length
    modifies buf
    ensures end == at + |LowFirst(value, radix)| && buf[at..end] == LowFirst(value, radix)
    ensures forall k | 0 <= k < buf.Length && !(at <= k < end) :: buf[k] == old(buf[k])
  {
    hide LowFirst, Digit;
    ghost var digits := LowFirst(value, radix);
    LowFirstStep(0, radix);
    var newval: nat, p: nat := value, at;
    while newval > 0
      invariant at <= p && (p - at) + |LowFirst(newval, radix)| == |digits|
      invariant buf[at..p] + LowFirst(newval, radix) == digits
      invariant forall k | 0 <= k < buf.Length && !(at <= k < p) :: buf[k] == old(buf[k])
      decreases newval
    {
      LowFirstStep(newval, radix);
      ghost var before := buf[at..p];
      buf[p] := Digit(newval % radix);
      assert buf[at..p + 1] == before + [Digit(newval % radix)];
      p := p + 1;
      newval := newval / radix;
    }
    end := p;
  }

  lemma {:induction false} NoNulDigits(v: nat, radix: nat)
    requires 2 <= radix <= 36
    ensures forall i | 0 <= i < |LowFirst(v, radix)| :: LowFirst(v, radix)[i] != NUL
    decreases v
  {
    if v > 0 { Halves(v, radix); NoNulDigits(v / radix, radix); }
  }

  lemma NumeralHasNoNul(v: nat, radix: nat)
    requires 2 <= radix <= 36
    ensures forall i | 0 <= i < |Numeral(v, radix)| :: Numeral(v, radix)[i] != NUL
  {
    NumeralRoundTrip(v, radix);
    var s := Numeral(v, radix);
    forall i | 0 <= i < |s| ensures s[i] != NUL { assert DigitValue(s[i]) >= 0; }
  }

  lemma Unsliced(s: seq<byte>, from: nat, to: nat)
    requires from <= to <= |s|
    ensures forall k | from <= k < to :: s[k] == s[from..to][k - from]
  {
  }

  lemma NumeralIs(v: nat, radix: nat)
    requires 2 <= radix <= 36
    ensures Numeral(v, radix) == if v == 0 then [48] else Reversed(LowFirst(v, radix))
  {
  }

  /** `itoa(value, buf + at, radix)`. */
  method Itoa(value: nat, buf: array<byte>, at: nat, radix: nat) returns (ghost end: nat)
    requires 2 <= radix <= 36 && at + |Numeral(value, radix)| < buf.Length
    modifies buf
    ensures end == at + |Numeral(value, radix)|
    ensures buf[at..end] == Numeral(value, radix) && buf[end] == NUL && forall k | at <= k < end :: buf[k] != NUL
    ensures forall k | 0 <= k < buf.Length && !(at <= k <= end) :: buf[k] == old(buf[k])
  {
    hide Numeral, LowFirst, Reversed;
    NumeralIs(value, radix);
    if value == 0 {
      buf[at] := 48;
      buf[at + 1] := NUL;
      assert buf[at..at + 1] == [48];
      return at + 1;
    }
    NoNulDigits(value, radix);
    var p := WriteDigits(value, buf, at, radix);
    Unsliced(buf[..], at, p);
    buf[p] := NUL;
    end := p;
    assert buf[at..end] == LowFirst(value, radix);
    StrRev(buf, at, end);
    NumeralHasNoNul(value, radix);
    Unsliced(buf[..], at, end);
  }

  function Zeros(n: nat): (r: seq<byte>)
    ensures |r| == n && forall i | 0 <= i < n :: r[i] == 48
  {
    seq(n, _ => 48)
  }

  lemma {:induction false} LeadingZeros(n: nat, s: seq<byte>, radix: nat)
    requires s != []
    ensures Value(Zeros(n) + s, radix) == Value(s, radix)
    decreases n + |s|
  {
    var t := Zeros(n) + s;
    assert t[|t| - 1] == s[|s| - 1];
    assert t[..|t| - 1] == Zeros(n) + s[..|s| - 1];
    if |s| > 1 {
      LeadingZeros(n, s[..|s| - 1], radix);
    } else {
      NoValue(n, radix);
      assert s[..0] == [] && Zeros(n) + [] == Zeros(n);
    }
  }

  lemma {:induction false} NoValue(n: nat, radix: nat)
    ensures Value(Zeros(n), radix) == 0
  {
    if n > 0 { NoValue(n - 1, radix); assert Zeros(n)[..n - 1] == Zeros(n - 1); }
  }

  /** What `%#x` prints for every 32-bit number: eight hexadecimal digits that denote it. */
  lemma EightDigits(v: nat)
    requires v < TWO_32
    ensures |Numeral(v, 16)| <= 8
    ensures Value(Zeros(8 - |Numeral(v, 16)|) + Numeral(v, 16), 16) == v
  {
    HexLength(v);
    NumeralRoundTrip(v, 16);
    LeadingZeros(8 - |Numeral(v, 16)|, Numeral(v, 16), 16);
  }

  lemma Assembled(text: seq<byte>, start: nat, numeral: seq<byte>)
    requires start <= 8 && |text| == 8 && |numeral| == start
    requires forall i | 0 <= i < 8 - start :: text[i] == 48
    requires forall i | 8 - start <= i < 8 :: text[i] == numeral[i - (8 - start)]
    ensures text == Zeros(8 - start) + numeral
    ensures IsNumeral(numeral, 16) ==> forall i | 0 <= i < 8 :: 0 <= DigitValue(text[i]) < 16 && text[i] != NUL
  {
  }

  /** The `%#x` conversion: the string that starts at `start` in the 64-byte buffer. */
  method AlternateHex(value: nat, buf: array<byte>) returns (start: nat)
    requires value < TWO_32 && buf.Length == 64
    modifies buf
    ensures start <= 8 && buf[start + 8] == NUL
    ensures Value(buf[start..start + 8], 16) == value
    ensures forall k | start <= k < start + 8 :: 0 <= DigitValue(buf[k]) < 16 && buf[k] != NUL
  {
    hide Numeral, Value, IsNumeral;
    HexLength(value);
    NumeralRoundTrip(value, 16);
    ghost var numeral := Numeral(value, 16);
    ghost var end := Itoa(value, buf, 8, 16);
    ghost var was := buf[..];
    var i := StrLen(buf, 8, end);
    start := i;
    while i < 8
      invariant start <= i <= 8 && (forall k | start <= k < i :: buf[k] == 48)
      invariant forall k | 8 <= k <= end :: buf[k] == was[k]
    {
      buf[i] := 48;
      i := i + 1;
    }
    Assembled(buf[start..start + 8], start, was[8..end]);
    Unsliced(buf[..], start, start + 8);
    EightDigits(value);
  }
}
