/** Which texts are read as timestamps, and the instant each stands for. */
module TimestampForms {
  import opened Basics
  import opened Decimal
  import opened Calendar
  import opened Timestamps

  /** The digits of a timestamp, and the fraction of a second with its mark, if there is one. */
  datatype Parts = Parts(year: string, month: string, day: string, hour: string, minute: string, second: string, mark: string, fraction: string)

  predicate Number(s: string, width: nat) {
    |s| == width && AllDigits(s)
  }

  function DateIn(p: Parts): Date
    requires Number(p.year, 4) && Number(p.month, 2) && Number(p.day, 2)
  {
    Date(Value(p.year), Value(p.month), Value(p.day))
  }

  predicate PartsOk(p: Parts) {
    && Number(p.year, 4) && Number(p.month, 2) && Number(p.day, 2) && ValidDate(DateIn(p))
    && Number(p.hour, 2) && Number(p.minute, 2) && Number(p.second, 2)
    && Value(p.hour) <= 23 && Value(p.minute) <= 59 && Value(p.second) <= 59
    && AllDigits(p.fraction)
    && if p.fraction == "" then p.mark == "" else p.mark == "." || p.mark == ","
  }

  function ClockSeen(p: Parts): string {
    p.hour + (p.minute + (p.second + (p.mark + p.fraction + "Z")))
  }

  function Seen(p: Parts): string {
    p.year + (p.month + (p.day + ("T" + ClockSeen(p))))
  }

  /** The whole nanoseconds of a decimal fraction of a second; further digits count for nothing. */
  function Nanoseconds(digits: string): nat
    requires AllDigits(digits)
  {
    PositivePower(|digits|);
    Floor(Value(digits) * SECOND, Pow10(|digits|))
  }

  function Floor(x: nat, d: nat): nat
    requires d > 0
  {
    x / d
  }

  /** The date at midnight, the time of day and the fraction of a second. */
  function InstantOf(p: Parts): Instant
    requires PartsOk(p)
  {
    InstantAt(DateIn(p), SecondsIn(p), Nanoseconds(p.fraction))
  }

  function InstantAt(date: Date, clock: int, nanoseconds: int): Instant
    requires ValidDate(date)
  {
    (DayNumber(date) * 86_400 + clock) * SECOND + nanoseconds
  }

  function SecondsIn(p: Parts): int
    requires PartsOk(p)
  {
    3600 * Value(p.hour) + 60 * Value(p.minute) + Value(p.second)
  }

  // ---------- fractions ----------

  lemma PowerSplits(a: nat, b: nat)
    ensures Pow10(a + b) == Pow10(a) * Pow10(b)
    decreases b
  {
    if b > 0 { PowerSplits(a, b - 1); }
  }

  lemma Nine()
    ensures Pow10(9) == SECOND
  {
    assert Pow10(3) == 1000;
    assert Pow10(6) == 1_000_000;
  }

  lemma FloorDivision(x: nat, q: nat, d: nat)
    requires d > 0 && q * d <= x < (q + 1) * d
    ensures Floor(x, d) == q
  {
    var k := x / d;
    assert x == k * d + x % d;
    LessTimes(k + 1, q, d);
    LessTimes(q + 1, k, d);
  }

  lemma {:induction false} PositivePower(k: nat)
    ensures Pow10(k) > 0
  {
    if k > 0 { PositivePower(k - 1); }
  }

  /** The value of the first `k` digits. */
  lemma {:induction false} LeadingValue(d: string, k: nat)
    requires AllDigits(d) && k <= |d|
    ensures Value(d[..k]) * Pow10(|d| - k) <= Value(d) < (Value(d[..k]) + 1) * Pow10(|d| - k)
  {
    if k == |d| {
      assert d[..k] == d;
    } else {
      var front := d[..|d| - 1];
      assert front[..k] == d[..k];
      LeadingValue(front, k);
      var v, p := Value(d[..k]), Pow10(|front| - k);
      assert Pow10(|d| - k) == 10 * p && Value(d) == 10 * Value(front) + DigitValue(d[|d| - 1]);
      TenTimes(v, p, Value(front), DigitValue(d[|d| - 1]));
    }
  }

  lemma TenTimes(v: nat, p: nat, front: nat, digit: nat)
    requires v * p <= front < (v + 1) * p && digit < 10
    ensures v * (10 * p) <= 10 * front + digit < (v + 1) * (10 * p)
  {
    assert v * (10 * p) == 10 * (v * p);
    assert (v + 1) * (10 * p) == 10 * ((v + 1) * p);
  }

  lemma Scale(v: nat, p: nat, x: nat, s: nat)
    requires v * p <= x < (v + 1) * p && s > 0
    ensures v * (s * p) <= x * s < (v + 1) * (s * p)
  {
    assert v * (s * p) == (v * p) * s && (v + 1) * (s * p) == ((v + 1) * p) * s;
    LessTimes(x, (v + 1) * p, s);
    LessTimes(v * p, x, s);
  }

  lemma LessTimes(a: nat, b: nat, s: nat)
    requires s > 0
    ensures a < b ==> a * s < b * s
    ensures a <= b ==> a * s <= b * s
  {
  }

  /** Reading up to nine digits and filling up with zeros gives the whole nanoseconds. */
  lemma NanosecondsAre(d: string, k: nat)
    requires AllDigits(d) && k == (if |d| <= 9 then |d| else 9)
    ensures Value(d[..k]) * Pow10(9 - k) == Nanoseconds(d)
  {
    Nine();
    PositivePower(|d|);
    PowerSplits(9 - k, k);
    if |d| <= 9 {
      assert d[..k] == d;
      var v, p := Value(d), Pow10(|d|);
      Refold(v, Pow10(9 - k), p);
      FloorDivision(v * SECOND, v * Pow10(9 - k), p);
    } else {
      LeadingValue(d, 9);
      PowerSplits(9, |d| - 9);
      Scale(Value(d[..9]), Pow10(|d| - 9), Value(d), SECOND);
      FloorDivision(Value(d) * SECOND, Value(d[..9]), Pow10(|d|));
    }
  }

  lemma Refold(v: nat, a: nat, p: nat)
    requires p > 0
    ensures v * a * p == v * (a * p) && v * (a * p) < (v * a + 1) * p
  {
    assert (v * a + 1) * p == v * a * p + p;
  }

  lemma FractionReads(p: Parts)
    requires AllDigits(p.fraction) && if p.fraction == "" then p.mark == "" else p.mark == "." || p.mark == ","
    ensures ParseFraction(p.mark + p.fraction + "Z") == (Nanoseconds(p.fraction), "Z")
  {
    var s := p.mark + p.fraction + "Z";
    if p.fraction == "" {
      assert s == "Z";
      assert Value("") == 0;
    } else {
      assert s[1..] == p.fraction + "Z" && s[1] == p.fraction[0];
      DigitsThenStop(p.fraction, "Z");
      var k := if |p.fraction| <= 9 then |p.fraction| else 9;
      assert s[1..][..k] == p.fraction[..k] && s[1..][|p.fraction|..] == "Z";
      NanosecondsAre(p.fraction, k);
    }
  }

  lemma FractionForm(s: string) returns (mark: string, fraction: string)
    requires ParseFraction(s).1 == "Z"
    ensures s == mark + fraction + "Z" && AllDigits(fraction) && if fraction == "" then mark == "" else mark == "." || mark == ","
  {
    if |s| >= 2 && (s[0] == '.' || s[0] == ',') && IsDigit(s[1]) {
      var n := DigitsLength(s[1..]);
      DigitsLengthMeans(s[1..]);
      mark, fraction := s[..1], s[1..][..n];
      assert s[1..] == fraction + "Z" && s == mark + s[1..];
    } else {
      mark, fraction := "", "";
    }
  }

  // ---------- numbers of a fixed width ----------

  lemma TakesNumber(d: string, rest: string, width: nat)
    requires Number(d, width)
    ensures TakeNumber(d + rest, width) == Some((Value(d), rest))
  {
    assert (d + rest)[..width] == d && (d + rest)[width..] == rest;
  }

  lemma NumberTaken(s: string, width: nat) returns (d: string, rest: string)
    requires TakeNumber(s, width).Some?
    ensures s == d + rest && Number(d, width) && TakeNumber(s, width) == Some((Value(d), rest))
  {
    d, rest := s[..width], s[width..];
  }

  lemma DateReads(p: Parts, rest: string)
    requires PartsOk(p)
    ensures ParseDate(p.year + (p.month + (p.day + rest))) == Some((DateIn(p), rest))
  {
    TakesNumber(p.year, p.month + (p.day + rest), 4);
    TakesNumber(p.month, p.day + rest, 2);
    TakesNumber(p.day, rest, 2);
  }

  lemma ClockReads(p: Parts)
    requires PartsOk(p)
    ensures ParseClock(ClockSeen(p)) == Some((SecondsIn(p), p.mark + p.fraction + "Z"))
  {
    var end := p.mark + p.fraction + "Z";
    TakesNumber(p.hour, p.minute + (p.second + end), 2);
    TakesNumber(p.minute, p.second + end, 2);
    TakesNumber(p.second, end, 2);
  }

  lemma StampFromParts(s: string, date: Date, tail: string, clock: nat, end: string, nanoseconds: nat)
    requires ParseDate(s) == Some((date, "T" + tail)) && ValidDate(date)
    requires ParseClock(tail) == Some((clock, end)) && ParseFraction(end) == (nanoseconds, "Z")
    ensures ParseStamp(s) == Some(InstantAt(date, clock, nanoseconds))
  {
    assert ("T" + tail)[1..] == tail;
  }

  lemma SeenReads(p: Parts)
    requires PartsOk(p)
    ensures ParseStamp(Seen(p)) == Some(InstantOf(p))
  {
    DateReads(p, "T" + ClockSeen(p));
    ClockReads(p);
    FractionReads(p);
    StampFromParts(Seen(p), DateIn(p), ClockSeen(p), SecondsIn(p), p.mark + p.fraction + "Z", Nanoseconds(p.fraction));
  }

  lemma DateForm(s: string) returns (year: string, month: string, day: string, rest: string)
    requires ParseDate(s).Some?
    ensures s == year + (month + (day + rest)) && Number(year, 4) && Number(month, 2) && Number(day, 2)
    ensures ParseDate(s) == Some((Date(Value(year), Value(month), Value(day)), rest))
  {
    var afterYear, afterMonth;
    year, afterYear := NumberTaken(s, 4);
    month, afterMonth := NumberTaken(afterYear, 2);
    day, rest := NumberTaken(afterMonth, 2);
  }

  lemma ClockForm(s: string) returns (hour: string, minute: string, second: string, rest: string)
    requires ParseClock(s).Some?
    ensures s == hour + (minute + (second + rest)) && Number(hour, 2) && Number(minute, 2) && Number(second, 2)
    ensures Value(hour) <= 23 && Value(minute) <= 59 && Value(second) <= 59 && ParseClock(s).value.1 == rest
  {
    var afterHour, afterMinute;
    hour, afterHour := NumberTaken(s, 2);
    minute, afterMinute := NumberTaken(afterHour, 2);
    second, rest := NumberTaken(afterMinute, 2);
  }

  lemma ReadIsSeen(s: string) returns (p: Parts)
    requires ParseStamp(s).Some?
    ensures PartsOk(p) && Seen(p) == s
  {
    var year, month, day, rest := DateForm(s);
    var hour, minute, second, end := ClockForm(rest[1..]);
    var mark, fraction := FractionForm(end);
    p := Parts(year, month, day, hour, minute, second, mark, fraction);
    assert rest == "T" + rest[1..];
  }

  /** The text is a timestamp for `t`. */
  ghost predicate Tells(s: string, t: Instant) {
    exists p :: PartsOk(p) && Seen(p) == s && InstantOf(p) == t
  }

  /** A text is read as an instant exactly when it is a calendar date and a time of day, with a fraction of a second
      or without, that name that instant. */
  lemma StampMeans(s: string, t: Instant)
    ensures ParseStamp(s) == Some(t) <==> Tells(s, t)
  {
    if Tells(s, t) {
      var p :| PartsOk(p) && Seen(p) == s && InstantOf(p) == t;
      SeenReads(p);
    }
    if ParseStamp(s) == Some(t) {
      var p := ReadIsSeen(s);
      SeenReads(p);
    }
  }
}
