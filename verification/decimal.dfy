/** Decimal numerals: printing, reading, and Go's `%d` scanning verb. */
module Decimal {
  import opened Basics

  predicate IsDigit(c: char) {
    '0' <= c <= '9'
  }

  predicate AllDigits(s: string) {
    forall i :: 0 <= i < |s| ==> IsDigit(s[i])
  }

  function DigitValue(c: char): nat
    requires IsDigit(c)
  {
    c as nat - '0' as nat
  }

  function DigitChar(d: nat): (c: char)
    requires d < 10
    ensures IsDigit(c) && DigitValue(c) == d
  {
    '0' + d as char
  }

  /** The number a string of digits stands for; leading zeros are allowed. */
  function Value(s: string): nat
    requires AllDigits(s)
  {
    if s == "" then 0 else 10 * Value(s[..|s| - 1]) + DigitValue(s[|s| - 1])
  }

  function Itoa(n: nat): (s: string)
    ensures |s| > 0 && AllDigits(s)
  {
    if n < 10 then [DigitChar(n)] else Itoa(n / 10) + [DigitChar(n % 10)]
  }

  lemma {:induction false} ValueOfItoa(n: nat)
    ensures Value(Itoa(n)) == n
  {
    if n < 10 {
      assert Itoa(n)[..0] == "";
    } else {
      ValueOfItoa(n / 10);
      assert Itoa(n)[..|Itoa(n)| - 1] == Itoa(n / 10);
    }
  }

  /** Numerals without needless leading zeros are exactly what printing produces. */
  predicate Plain(s: string) {
    s != "" && AllDigits(s) && (|s| > 1 ==> s[0] != '0')
  }

  lemma {:induction false} ItoaIsPlain(n: nat)
    ensures Plain(Itoa(n)) && (n > 0 ==> Itoa(n)[0] != '0')
  {
    if n >= 10 { ItoaIsPlain(n / 10); }
  }

  lemma {:induction false} ItoaOfValue(s: string)
    requires Plain(s)
    ensures Itoa(Value(s)) == s
  {
    var front, last := s[..|s| - 1], s[|s| - 1];
    assert s == front + [last];
    if front == "" {
      assert Value(front) == 0;
    } else {
      ItoaOfValue(front);
      PositiveValue(front);
      var v, d := Value(front), DigitValue(last);
      assert Value(s) == 10 * v + d && (10 * v + d) / 10 == v && (10 * v + d) % 10 == d;
      assert DigitChar(d) == last;
    }
  }

  lemma {:induction false} PositiveValue(s: string)
    requires AllDigits(s) && s != "" && s[0] != '0'
    ensures Value(s) > 0
  {
    if |s| == 1 {
      assert s[..0] == "";
    } else {
      PositiveValue(s[..|s| - 1]);
    }
  }

  function Pow10(k: nat): nat {
    if k == 0 then 1 else 10 * Pow10(k - 1)
  }

  // ---------- scanning ----------

  function DigitsLength(s: string): (n: nat)
    ensures n <= |s|
  {
    if s == "" || !IsDigit(s[0]) then 0 else 1 + DigitsLength(s[1..])
  }

  lemma {:induction false} DigitsLengthMeans(s: string)
    ensures AllDigits(s[..DigitsLength(s)])
    ensures DigitsLength(s) < |s| ==> !IsDigit(s[DigitsLength(s)])
  {
    if s != "" && IsDigit(s[0]) {
      DigitsLengthMeans(s[1..]);
      assert s[..DigitsLength(s)] == [s[0]] + s[1..][..DigitsLength(s[1..])];
    }
  }

  /** Sscanf's `%d` on text without white space: an optional sign, digits as far as they go, and an error
      outside 64 bits. Returns the number and the text left over. */
  function ScanInt(s: string): Option<(int, string)> {
    var signed := s != "" && (s[0] == '+' || s[0] == '-');
    var digits := if signed then s[1..] else s;
    var n := DigitsLength(digits);
    DigitsLengthMeans(digits);
    if n == 0 then None
    else
      var v := if signed && s[0] == '-' then -(Value(digits[..n]) as int) else Value(digits[..n]);
      if -TWO63 <= v < TWO63 then Some((v, digits[n..])) else None
  }

  lemma {:induction false} DigitsThenStop(d: string, rest: string)
    requires AllDigits(d) && (rest == "" || !IsDigit(rest[0]))
    ensures DigitsLength(d + rest) == |d|
  {
    if d != "" {
      assert (d + rest)[1..] == d[1..] + rest;
      DigitsThenStop(d[1..], rest);
    } else {
      assert d + rest == rest;
    }
  }

  /** Scanning a numeral that fits gives its value back and leaves what follows it. */
  lemma ScanNumeral(d: string, rest: string)
    requires AllDigits(d) && d != "" && Value(d) < TWO63 && (rest == "" || !IsDigit(rest[0]))
    ensures ScanInt(d + rest) == Some((Value(d), rest))
  {
    DigitsThenStop(d, rest);
    assert (d + rest)[..|d|] == d && (d + rest)[|d|..] == rest;
    assert IsDigit(d[0]);
  }
}
