/** The basic-format UTC timestamps of signed requests, `20060102T150405Z` in Go's notation. */
module Timestamps {
  import opened Basics
  import opened Decimal
  import opened Calendar

  const DAY_SECONDS: int := 86_400

  /** The last `width` digits of `n`. */
  function Digits(n: nat, width: nat): (s: string)
    ensures |s| == width && AllDigits(s)
  {
    if width == 0 then "" else Digits(n / 10, width - 1) + [DigitChar(n % 10)]
  }

  lemma {:induction false} ValueOfDigits(n: nat, width: nat)
    requires n < Pow10(width)
    ensures Value(Digits(n, width)) == n
    decreases width
  {
    if width > 0 {
      ValueOfDigits(n / 10, width - 1);
      var d := Digits(n, width);
      assert d[..|d| - 1] == Digits(n / 10, width - 1);
    }
  }

  /** A number padded with zeros to `width`, and longer when it does not fit. */
  function PadNat(n: nat, width: nat): string {
    if n < Pow10(width) then Digits(n, width) else Itoa(n)
  }

  function Pad(n: int, width: nat): string {
    if n < 0 then "-" + PadNat(-n, width) else PadNat(n, width)
  }

  function DateText(d: Date): string {
    Pad(d.year, 4) + Pad(d.month, 2) + Pad(d.day, 2)
  }

  function ClockText(seconds: nat): string {
    Pad(seconds / 3600, 2) + Pad(seconds / 60 % 60, 2) + Pad(seconds % 60, 2)
  }

  /** Whole seconds since the epoch. */
  function WholeSeconds(t: Instant): int {
    t / SECOND
  }

  function DayOf(t: Instant): int {
    WholeSeconds(t) / DAY_SECONDS
  }

  function Datestamp(t: Instant): string {
    DateText(DateOf(DayOf(t)))
  }

  function Stamp(t: Instant): string {
    Datestamp(t) + "T" + ClockText(WholeSeconds(t) % DAY_SECONDS) + "Z"
  }

  // ---------- parsing ----------

  /** `n` digits at the start of `s`, and what follows them. */
  function TakeNumber(s: string, n: nat): Option<(nat, string)> {
    if |s| >= n && AllDigits(s[..n]) then Some((Value(s[..n]), s[n..])) else None
  }

  function ParseDate(s: string): Option<(Date, string)> {
    match TakeNumber(s, 4)
    case None => None
    case Some(y) =>
      match TakeNumber(y.1, 2)
      case None => None
      case Some(m) =>
        if !(1 <= m.0 <= 12) then None
        else
          match TakeNumber(m.1, 2)
          case None => None
          case Some(d) => Some((Date(y.0, m.0, d.0), d.1))
  }

  function ParseClock(s: string): Option<(nat, string)> {
    match TakeNumber(s, 2)
    case None => None
    case Some(h) =>
      if h.0 >= 24 then None
      else
        match TakeNumber(h.1, 2)
        case None => None
        case Some(m) =>
          if m.0 >= 60 then None
          else
            match TakeNumber(m.1, 2)
            case None => None
            case Some(s) => if s.0 >= 60 then None else Some((3600 * h.0 + 60 * m.0 + s.0, s.1))
  }

  lemma SomeDigits(s: string, k: nat)
    requires k <= DigitsLength(s)
    ensures AllDigits(s[..k])
  {
    DigitsLengthMeans(s);
    assert s[..k] == s[..DigitsLength(s)][..k];
  }

  /** time.Parse accepts a fraction after the seconds even though the layout has none; digits after the
      ninth are dropped. */
  function ParseFraction(s: string): (nat, string) {
    if |s| >= 2 && (s[0] == '.' || s[0] == ',') && IsDigit(s[1]) then
      var rest := s[1..];
      var n := DigitsLength(rest);
      var k := if n <= 9 then n else 9;
      SomeDigits(rest, k);
      (Value(rest[..k]) * Pow10(9 - k), rest[n..])
    else (0, s)
  }

  /** time.Parse with the layout `20060102T150405Z`. */
  function ParseStamp(s: string): Option<Instant> {
    match ParseDate(s)
    case None => None
    case Some(date) =>
      if date.1 == "" || date.1[0] != 'T' then None
      else
        match ParseClock(date.1[1..])
        case None => None
        case Some(clock) =>
          var fraction := ParseFraction(clock.1);
          if fraction.1 != "Z" || !ValidDate(date.0) then None
          else Some((DayNumber(date.0) * DAY_SECONDS + clock.0) * SECOND + fraction.0)
  }

  lemma TakePadded(n: nat, width: nat, rest: string)
    requires n < Pow10(width)
    ensures TakeNumber(Pad(n, width) + rest, width) == Some((n, rest))
  {
    ValueOfDigits(n, width);
    var s := Pad(n, width) + rest;
    assert s[..width] == Pad(n, width) && s[width..] == rest;
  }

  lemma Powers()
    ensures Pow10(2) == 100 && Pow10(4) == 10_000
  {
    assert Pow10(1) == 10 && Pow10(3) == 1000;
  }

  lemma DateReadsBack(d: Date, rest: string)
    requires ValidDate(d) && 0 <= d.year <= 9999
    ensures ParseDate(DateText(d) + rest) == Some((d, rest))
  {
    Powers();
    var y, m, day := Pad(d.year, 4), Pad(d.month, 2), Pad(d.day, 2);
    assert DateText(d) + rest == y + (m + (day + rest));
    TakePadded(d.year, 4, m + (day + rest));
    TakePadded(d.month, 2, day + rest);
    TakePadded(d.day, 2, rest);
  }

  lemma ClockReadsBack(seconds: nat, rest: string)
    requires seconds < DAY_SECONDS
    ensures ParseClock(ClockText(seconds) + rest) == Some((seconds, rest))
  {
    Powers();
    var h, m, s := seconds / 3600, seconds / 60 % 60, seconds % 60;
    ClockParts(seconds);
    assert ClockText(seconds) + rest == Pad(h, 2) + (Pad(m, 2) + (Pad(s, 2) + rest));
    TakePadded(h, 2, Pad(m, 2) + (Pad(s, 2) + rest));
    TakePadded(m, 2, Pad(s, 2) + rest);
    TakePadded(s, 2, rest);
  }

  lemma ClockParts(seconds: nat)
    requires seconds < DAY_SECONDS
    ensures 3600 * (seconds / 3600) + 60 * (seconds / 60 % 60) + seconds % 60 == seconds
    ensures seconds / 3600 < 24 && seconds / 60 % 60 < 60
  {
  }

  lemma StampFrom(s: string, date: Date, c: string, clock: nat)
    requires ValidDate(date) && ParseDate(s) == Some((date, "T" + c)) && ParseClock(c) == Some((clock, "Z"))
    ensures ParseStamp(s) == Some((DayNumber(date) * DAY_SECONDS + clock) * SECOND)
  {
    assert ("T" + c)[1..] == c;
  }

  lemma StampParts(d: string, c: string)
    ensures d + "T" + c + "Z" == d + ("T" + (c + "Z"))
  {
  }

  lemma StampSplits(date: Date, clock: nat)
    requires ValidDate(date) && 0 <= date.year <= 9999 && clock < DAY_SECONDS
    ensures ParseStamp(DateText(date) + "T" + ClockText(clock) + "Z") == Some((DayNumber(date) * DAY_SECONDS + clock) * SECOND)
  {
    var d, c := DateText(date), ClockText(clock);
    StampParts(d, c);
    DateReadsBack(date, "T" + (c + "Z"));
    ClockReadsBack(clock, "Z");
    StampFrom(d + "T" + c + "Z", date, c + "Z", clock);
  }

  lemma SecondsOf(t: Instant)
    ensures (DayOf(t) * DAY_SECONDS + WholeSeconds(t) % DAY_SECONDS) * SECOND == t - t % SECOND
  {
    assert DayOf(t) * DAY_SECONDS + WholeSeconds(t) % DAY_SECONDS == WholeSeconds(t);
  }

  lemma StampOfDay(day: int, clock: nat, t: Instant)
    requires 0 <= DateOf(day).year <= 9999 && clock < DAY_SECONDS && (day * DAY_SECONDS + clock) * SECOND == t
    ensures ParseStamp(DateText(DateOf(day)) + "T" + ClockText(clock) + "Z") == Some(t)
  {
    DayNumberOfDate(day);
    StampSplits(DateOf(day), clock);
  }

  /** Reading a timestamp back gives the instant it was made from, cut to whole seconds. */
  lemma StampReadsBack(t: Instant)
    requires 0 <= DateOf(DayOf(t)).year <= 9999
    ensures ParseStamp(Stamp(t)) == Some(t - t % SECOND)
  {
    SecondsOf(t);
    StampOfDay(DayOf(t), WholeSeconds(t) % DAY_SECONDS, t - t % SECOND);
  }

  /** A timestamp is digits and the two letters, so it holds no separator of the formats around it. */
  lemma StampShape(t: Instant)
    requires 0 <= DateOf(DayOf(t)).year <= 9999
    ensures |Datestamp(t)| == 8 && AllDigits(Datestamp(t))
    ensures |Stamp(t)| == 16 && forall c :: c in Stamp(t) ==> IsDigit(c) || c == 'T' || c == 'Z'
  {
    Powers();
    ClockParts(WholeSeconds(t) % DAY_SECONDS);
  }
}
