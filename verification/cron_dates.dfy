/** Written schedules and the calendar: which minutes a five-field schedule stands for, with the day of the week
    given by a formula of its own. */
module CronDates {
  import opened Basics
  import opened Text
  import opened Decimal
  import opened Calendar
  import opened CronFields
  import opened CronMeaning
  import opened CronSearch
  import opened Cron

  // ---------- the day of the week ----------

  /** Zeller's congruence for the Gregorian calendar, with Sunday as 0: January and February count as the 13th and
      14th month of the year before. */
  function ZellerDay(d: Date): (w: int)
    ensures 0 <= w <= 6
  {
    var m, y := if d.month <= 2 then d.month + 12 else d.month, if d.month <= 2 then d.year - 1 else d.year;
    (d.day + 13 * (m + 1) / 5 + y + y / 4 - y / 100 + y / 400 + 6) % 7
  }

  /** The days before a month, up to whole weeks, as the congruence counts them. */
  lemma MonthShift(year: int, month: int)
    requires 1 <= month <= 12
    ensures var m, leap := if month <= 2 then month + 12 else month, if Leap(year) && month > 2 then 1 else 0;
            (BeforeMonth(year, month) - leap + (if month <= 2 then 1 else 0) - 13 * (m + 1) / 5) % 7 == 0
  {
  }

  lemma LeapShift(year: int)
    ensures year / 4 - year / 100 + year / 400 == (year - 1) / 4 - (year - 1) / 100 + (year - 1) / 400 + (if Leap(year) then 1 else 0)
  {
    YearLength(year);
  }

  /** The day of the week counted from 1970-01-01 is the one the congruence gives. */
  lemma WeekdayIsZeller(d: Date)
    requires ValidDate(d)
    ensures Weekday(DayNumber(d)) == ZellerDay(d)
  {
    MonthShift(d.year, d.month);
    LeapShift(d.year);
    var y := d.year - 1;
    var shift := BeforeMonth(d.year, d.month);
    if d.month <= 2 {
      WholeWeeks(DayNumber(d) + 4, d.day + 13 * (d.month + 13) / 5 + y + y / 4 - y / 100 + y / 400 + 6, 52 * y - 102738);
    } else {
      WholeWeeks(DayNumber(d) + 4, d.day + 13 * (d.month + 1) / 5 + d.year + d.year / 4 - d.year / 100 + d.year / 400 + 6, 52 * d.year - 102790);
    }
  }

  lemma WholeWeeks(a: int, b: int, weeks: int)
    requires (a - b - 7 * weeks) % 7 == 0
    ensures a % 7 == b % 7
  {
  }

  lemma WeekdayOfDate(day: int)
    ensures Weekday(day) == ZellerDay(DateOf(day))
  {
    DayNumberOfDate(day);
    WeekdayIsZeller(DateOf(day));
  }

  // ---------- splitting the text ----------

  predicate Word(w: string) {
    w != "" && SpaceFree(w)
  }

  lemma {:induction false} WordLengthIs(w: string, rest: string)
    requires SpaceFree(w) && WordEnds(rest)
    ensures WordLength(w + rest) == |w|
  {
    if w == "" {
      assert w + rest == rest;
    } else {
      assert (w + rest)[1..] == w[1..] + rest;
      assert w[0] in w && forall c :: c in w[1..] ==> c in w;
      WordLengthIs(w[1..], rest);
    }
  }

  predicate WordEnds(rest: string) {
    rest == "" || IsSpace(rest[0])
  }

  lemma FieldsStep(s: string, space: string, word: string, rest: string)
    requires AllSpaces(space) && Word(word) && WordEnds(rest) && s == space + word + rest
    ensures Fields(s) == [word] + Fields(rest)
  {
    assert word[0] in word;
    assert s == space + (word + rest);
    LeadingBlank(space, word + rest);
    assert TrimLeft(s) == word + rest;
    WordLengthIs(word, rest);
    assert (word + rest)[..|word|] == word && (word + rest)[|word|..] == rest;
  }

  lemma FieldsOfWord(w: string)
    requires Word(w)
    ensures Fields(w) == [w]
  {
    assert w == "" + w + "";
    FieldsStep(w, "", w, "");
    assert Fields("") == [];
  }

  lemma FieldsCons(w: string, rest: string)
    requires Word(w)
    ensures Fields(w + " " + rest) == [w] + Fields(rest)
  {
    assert w + " " + rest == "" + w + (" " + rest);
    FieldsStep(w + " " + rest, "", w, " " + rest);
    FieldsSkip(rest);
  }

  lemma FieldsSkip(rest: string)
    ensures Fields(" " + rest) == Fields(rest)
  {
    assert (" " + rest)[1..] == rest;
    assert LeadingSpaces(" " + rest) == 1 + LeadingSpaces(rest);
    assert TrimLeft(" " + rest) == TrimLeft(rest);
  }

  lemma FiveWords(a: string, b: string, c: string, d: string, e: string)
    requires Word(a) && Word(b) && Word(c) && Word(d) && Word(e)
    ensures Fields(a + " " + (b + " " + (c + " " + (d + " " + e)))) == [a, b, c, d, e]
  {
    FieldsOfWord(e);
    FieldsCons(d, e);
    FieldsCons(c, d + " " + e);
    FieldsCons(b, c + " " + (d + " " + e));
    FieldsCons(a, b + " " + (c + " " + (d + " " + e)));
    ListOfFive(a, b, c, d, e);
  }

  lemma ListOfFive<T>(a: T, b: T, c: T, d: T, e: T)
    ensures [a] + ([b] + ([c] + ([d] + [e]))) == [a, b, c, d, e]
  {
  }

  // ---------- written schedules ----------

  /** The five fields, each a list of terms. */
  datatype Plan = Plan(minute: seq<Term>, hour: seq<Term>, day: seq<Term>, month: seq<Term>, weekday: seq<Term>)

  predicate TermsOk(terms: seq<Term>) {
    |terms| >= 1 && forall t :: t in terms ==> WellFormed(t)
  }

  predicate PlanOk(p: Plan) {
    TermsOk(p.minute) && TermsOk(p.hour) && TermsOk(p.day) && TermsOk(p.month) && TermsOk(p.weekday)
  }

  function PlanText(p: Plan): string {
    Field(p.minute) + " " + (Field(p.hour) + " " + (Field(p.day) + " " + (Field(p.month) + " " + Field(p.weekday))))
  }

  function ScheduleOf(p: Plan): Schedule {
    Schedule(Field(p.minute), Field(p.hour), Field(p.day), Field(p.month), Field(p.weekday))
  }

  lemma {:induction false} JoinedWords(parts: seq<string>)
    requires |parts| >= 1 && forall p :: p in parts ==> Word(p)
    ensures Word(Join(parts, ","))
  {
    if |parts| > 1 {
      JoinedWords(parts[1..]);
      assert forall c :: c in Join(parts, ",") ==> c in parts[0] || c == ',' || c in Join(parts[1..], ",");
      assert parts[0] in parts;
    } else {
      assert parts[0] in parts;
    }
  }

  lemma FieldIsWord(terms: seq<Term>)
    requires TermsOk(terms)
    ensures Word(Field(terms))
  {
    forall p | p in WrittenAll(terms) ensures Word(p) {
      var i :| 0 <= i < |terms| && p == Written(terms[i]);
      assert terms[i] in terms;
      WrittenMarks(terms[i]);
    }
    JoinedWords(WrittenAll(terms));
  }

  lemma FiveWordsParse(a: string, b: string, c: string, d: string, e: string)
    requires Word(a) && Word(b) && Word(c) && Word(d) && Word(e)
    ensures ParseSchedule(a + " " + (b + " " + (c + " " + (d + " " + e)))) == Some(Schedule(a, b, c, d, e))
  {
    FiveWords(a, b, c, d, e);
    TextIsTrimmed(a, b + " " + (c + " " + (d + " " + e)), e);
    ParseOf(a + " " + (b + " " + (c + " " + (d + " " + e))), a, b, c, d, e);
  }

  lemma ParseOf(text: string, a: string, b: string, c: string, d: string, e: string)
    requires TrimSpace(text) == text && Fields(text) == [a, b, c, d, e]
    ensures ParseSchedule(text) == Some(Schedule(a, b, c, d, e))
  {
  }

  lemma PlanParses(p: Plan)
    requires PlanOk(p)
    ensures ParseSchedule(PlanText(p)) == Some(ScheduleOf(p))
  {
    FieldIsWord(p.minute);
    FieldIsWord(p.hour);
    FieldIsWord(p.day);
    FieldIsWord(p.month);
    FieldIsWord(p.weekday);
    FiveWordsParse(Field(p.minute), Field(p.hour), Field(p.day), Field(p.month), Field(p.weekday));
  }

  lemma TextIsTrimmed(a: string, rest: string, e: string)
    requires Word(a) && Word(e) && |rest| >= |e| && rest[|rest| - |e|..] == e
    ensures TrimSpace(a + " " + rest) == a + " " + rest
  {
    var s := a + " " + rest;
    assert s[0] == a[0] && a[0] in a;
    assert s[|s| - 1] == rest[|rest| - 1] == e[|e| - 1] && e[|e| - 1] in e;
    TrimSpaceId(s);
  }

  // ---------- what they stand for ----------

  ghost predicate ClockFits(p: Plan, hour: int, minute: int)
    requires PlanOk(p)
  {
    AnyDenotes(p.minute, minute, 0, 59) && AnyDenotes(p.hour, hour, 0, 23)
  }

  ghost predicate DateFits(p: Plan, d: Date)
    requires PlanOk(p)
  {
    AnyDenotes(p.day, d.day, 1, 31) && AnyDenotes(p.month, d.month, 1, 12) && AnyDenotes(p.weekday, ZellerDay(d), 0, 6)
  }

  lemma ClockMeans(p: Plan, m: int, hour: int, minute: int)
    requires PlanOk(p) && 0 <= hour < 24 && 0 <= minute < 60 && m % 60 == minute && (m / 60) % 24 == hour
    ensures ClockMatch(ScheduleOf(p), m) <==> ClockFits(p, hour, minute)
  {
    FieldMeaning(p.minute, minute, 0, 59);
    FieldMeaning(p.hour, hour, 0, 23);
  }

  lemma DateFitsIs(p: Plan, d: Date, w: int)
    requires PlanOk(p) && ValidDate(d) && w == ZellerDay(d)
    ensures FieldMatch(Field(p.day), d.day, 1, 31) && FieldMatch(Field(p.month), d.month, 1, 12) && FieldMatch(Field(p.weekday), w, 0, 6) <==> DateFits(p, d)
  {
    FieldMeaning(p.day, d.day, 1, 31);
    FieldMeaning(p.month, d.month, 1, 12);
    FieldMeaning(p.weekday, w, 0, 6);
  }

  lemma DateMeans(p: Plan, day: int)
    requires PlanOk(p)
    ensures DateMatch(ScheduleOf(p), day) <==> DateFits(p, DateOf(day))
  {
    WeekdayOfDate(day);
    DateFitsIs(p, DateOf(day), Weekday(day));
  }

  /** A written schedule matches exactly the minutes whose minute, hour, day, month and day of the week its five
      fields denote, in that order. */
  lemma ScheduleMeans(p: Plan, m: int, day: int, hour: int, minute: int)
    requires PlanOk(p) && 0 <= hour < 24 && 0 <= minute < 60 && m == 1440 * day + 60 * hour + minute
    ensures ScheduleMatch(ScheduleOf(p), m) <==> ClockFits(p, hour, minute) && DateFits(p, DateOf(day))
  {
    SplitMinute(m, day, hour, minute);
    assert m / DAY_MINUTES == day;
    ClockMeans(p, m, hour, minute);
    DateMeans(p, day);
  }

  const HOUR: int := 60 * MINUTE

  const DAY: int := 24 * HOUR

  /** The plan stands for the instant `t`. */
  ghost predicate Due(p: Plan, t: Instant)
    requires PlanOk(p)
  {
    t % MINUTE == 0 && ClockFits(p, t / HOUR % 24, t / MINUTE % 60) && DateFits(p, DateOf(t / DAY))
  }

  lemma InstantParts(m: int)
    ensures var t := m * MINUTE;
            t % MINUTE == 0 && t / MINUTE == m && t / HOUR == m / 60 && t / DAY == m / 1440
  {
  }

  lemma MinuteParts(m: int)
    ensures m == 1440 * (m / 1440) + 60 * (m / 60 % 24) + m % 60
  {
  }

  lemma DueIsMatch(p: Plan, m: int)
    requires PlanOk(p)
    ensures Due(p, m * MINUTE) <==> ScheduleMatch(ScheduleOf(p), m)
  {
    InstantParts(m);
    MinuteParts(m);
    ScheduleMeans(p, m, m / 1440, m / 60 % 24, m % 60);
  }

  /** `due` holds of the matching minutes, and of nothing else. */
  ghost predicate SameMinutes(due: Instant -> bool, matches: Matches) {
    && (forall m: int :: due(m * MINUTE) == matches(m))
    && (forall t: Instant :: due(t) ==> t % MINUTE == 0)
  }

  lemma DueAt(due: Instant -> bool, matches: Matches, from: Instant, u: Instant)
    requires SameMinutes(due, matches) && due(u) && from < u
    ensures matches(u / MINUTE) && u / MINUTE * MINUTE == u && After(from) <= u / MINUTE
  {
    var m := u / MINUTE;
    assert m * MINUTE == u;
    AfterIsFirst(from, m);
  }

  /** The search, told by instants: the first one after `from` that is due, or none for two years. */
  lemma FirstDue(due: Instant -> bool, matches: Matches, from: Instant)
    requires SameMinutes(due, matches)
    ensures match NextMinute(matches, from)
            case Some(m) => from < m * MINUTE && due(m * MINUTE) && forall u :: from < u < m * MINUTE ==> !due(u)
            case None => forall u :: from < u <= from + 731 * DAY ==> !due(u)
  {
    NextIsLeast(matches, from);
    var next := NextMinute(matches, from);
    forall u | due(u) && from < u ensures next.Some? ==> next.value * MINUTE <= u {
      DueAt(due, matches, from, u);
    }
    forall u | due(u) && from < u <= from + 731 * DAY ensures next.Some? {
      DueAt(due, matches, from, u);
    }
  }

  ghost function DueOf(p: Plan): Instant -> bool
    requires PlanOk(p)
  {
    t => PlanOk(p) && Due(p, t)
  }

  lemma DueSame(p: Plan)
    requires PlanOk(p)
    ensures SameMinutes(DueOf(p), Matcher(ScheduleOf(p)))
  {
    forall m: int ensures DueOf(p)(m * MINUTE) == Matcher(ScheduleOf(p))(m) { DueIsMatch(p, m); }
  }

  lemma NextRunIs(due: Instant -> bool, text: string, s: Schedule, from: Instant)
    requires ParseSchedule(text) == Some(s) && SameMinutes(due, Matcher(s))
    ensures match NextCronRun(text, from)
            case Some(t) => from < t && due(t) && forall u :: from < u < t ==> !due(u)
            case None => forall u :: from < u <= from + 731 * DAY ==> !due(u)
  {
    FirstDue(due, Matcher(s), from);
  }

  /** The next run of a written schedule is the first instant after `from` that it stands for; without one there is
      none for two years. */
  lemma NextRunIsDue(p: Plan, from: Instant)
    requires PlanOk(p)
    ensures match NextCronRun(PlanText(p), from)
            case Some(t) => from < t && Due(p, t) && forall u :: from < u < t ==> !DueOf(p)(u)
            case None => forall u :: from < u <= from + 731 * DAY ==> !DueOf(p)(u)
  {
    PlanParses(p);
    DueSame(p);
    NextRunIs(DueOf(p), PlanText(p), ScheduleOf(p), from);
  }

  /** A question mark stands for every value, as a star does. */
  lemma QuestionIsStar(value: int, min: int, max: int)
    ensures FieldMatch("?", value, min, max) && FieldMatch("*", value, min, max)
  {
    TrimSpaceId("?");
    TrimSpaceId("*");
  }

  /** An attempt is recorded with its time, and the next run becomes the first instant after it that the job's
      schedule stands for. */
  lemma AttemptMeans(job: Job, p: Plan, now: Instant)
    requires PlanOk(p) && job.schedule == PlanText(p)
    ensures var after := Marked(job, now);
            && after.schedule == job.schedule && after.lastAttempt == Some(now) && after.updatedAt == now
            && match after.nextRun
               case Some(t) => now < t && Due(p, t) && forall u :: now < u < t ==> !DueOf(p)(u)
               case None => forall u :: now < u <= now + 731 * DAY ==> !DueOf(p)(u)
  {
    NextRunIsDue(p, now);
  }

  // ---------- days of the week ----------

  /** Once a week, on day `w`. */
  function Weekly(minute: string, hour: string, w: string): Plan {
    Plan([One(minute)], [One(hour)], [All], [All], [One(w)])
  }

  lemma OneDenotes(n: string, value: int, min: int, max: int)
    requires Numeral(n)
    ensures AnyDenotes([One(n)], value, min, max) <==> value == Value(n)
    ensures AnyDenotes([All], value, min, max)
  {
    assert [One(n)][0] in [One(n)] && Denotes(One(n), value, min, max) == (value == Value(n));
    assert [All][0] in [All] && Denotes(All, value, min, max);
  }

  lemma WeeklyFits(minute: string, hour: string, w: string, d: Date)
    requires Numeral(minute) && Numeral(hour) && Numeral(w)
    ensures PlanOk(Weekly(minute, hour, w))
    ensures DateFits(Weekly(minute, hour, w), d) <==> ZellerDay(d) == Value(w)
  {
    OneDenotes(w, d.day, 1, 31);
    OneDenotes(w, d.month, 1, 12);
    OneDenotes(w, ZellerDay(d), 0, 6);
  }

  /** A weekly schedule runs on dates of its day of the week only, at its hour and minute. */
  lemma WeeklyRuns(minute: string, hour: string, w: string, from: Instant)
    requires Numeral(minute) && Numeral(hour) && Numeral(w)
    ensures var next := NextCronRun(PlanText(Weekly(minute, hour, w)), from);
            next.Some? ==>
              && ZellerDay(DateOf(next.value / DAY)) == Value(w)
              && next.value / HOUR % 24 == Value(hour) && next.value / MINUTE % 60 == Value(minute)
  {
    var p := Weekly(minute, hour, w);
    WeeklyFits(minute, hour, w, DateOf(from / DAY));
    NextRunIsDue(p, from);
    var next := NextCronRun(PlanText(p), from);
    if next.Some? {
      WeeklyFits(minute, hour, w, DateOf(next.value / DAY));
      OneDenotes(hour, next.value / HOUR % 24, 0, 23);
      OneDenotes(minute, next.value / MINUTE % 60, 0, 59);
    }
  }

  lemma DayAhead(day: int, w: nat) returns (next: int)
    requires w <= 6
    ensures day <= next < day + 7 && Weekday(next) == w && Weekday(next + 7) == w
  {
    next := day + (w - Weekday(day)) % 7;
  }

  function AtClock(day: int, hour: int, minute: int): Instant {
    day * DAY + hour * HOUR + minute * MINUTE
  }

  lemma PartsOf(day: int, hour: int, minute: int)
    requires 0 <= hour < 24 && 0 <= minute < 60
    ensures var t := AtClock(day, hour, minute);
            t % MINUTE == 0 && t / DAY == day && t / HOUR % 24 == hour && t / MINUTE % 60 == minute
  {
    var t, m := AtClock(day, hour, minute), 1440 * day + 60 * hour + minute;
    assert t == m * MINUTE;
    InstantParts(m);
    SplitMinute(m, day, hour, minute);
  }

  lemma WeeklyDue(minute: string, hour: string, w: string, day: int, t: Instant)
    requires Numeral(minute) && Numeral(hour) && Numeral(w) && Value(minute) < 60 && Value(hour) < 24 && Weekday(day) == Value(w)
    requires t == AtClock(day, Value(hour), Value(minute))
    ensures PlanOk(Weekly(minute, hour, w)) && DueOf(Weekly(minute, hour, w))(t)
  {
    WeekdayOfDate(day);
    WeeklyFits(minute, hour, w, DateOf(day));
    OneDenotes(hour, Value(hour), 0, 23);
    OneDenotes(minute, Value(minute), 0, 59);
    PartsOf(day, Value(hour), Value(minute));
    DueFrom(Weekly(minute, hour, w), t, day, Value(hour), Value(minute));
  }

  lemma DueFrom(p: Plan, t: Instant, day: int, hour: int, minute: int)
    requires PlanOk(p) && ClockFits(p, hour, minute) && DateFits(p, DateOf(day))
    requires t % MINUTE == 0 && t / DAY == day && t / HOUR % 24 == hour && t / MINUTE % 60 == minute
    ensures DueOf(p)(t)
  {
  }

  /** A weekly schedule always has a next run, within seven days. */
  lemma WeeklyFound(minute: string, hour: string, w: string, from: Instant)
    requires Numeral(minute) && Numeral(hour) && Numeral(w) && Value(minute) < 60 && Value(hour) < 24 && Value(w) <= 6
    ensures var next := NextCronRun(PlanText(Weekly(minute, hour, w)), from); next.Some? && from < next.value <= from + 7 * DAY
  {
    var day := DayAhead(from / DAY, Value(w));
    WithinWeek(from, day, Value(hour), Value(minute));
    var late := AtClock(day, Value(hour), Value(minute)) <= from;
    var t := AtClock(if late then day + 7 else day, Value(hour), Value(minute));
    WeeklyDue(minute, hour, w, if late then day + 7 else day, t);
    FoundBy(Weekly(minute, hour, w), from, t);
  }

  lemma FoundBy(p: Plan, from: Instant, t: Instant)
    requires PlanOk(p) && DueOf(p)(t) && from < t <= from + 7 * DAY
    ensures var next := NextCronRun(PlanText(p), from); next.Some? && from < next.value <= from + 7 * DAY
  {
    NextRunIsDue(p, from);
  }

  lemma WithinWeek(from: Instant, day: int, hour: int, minute: int)
    requires 0 <= hour < 24 && 0 <= minute < 60 && from / DAY <= day < from / DAY + 7
    ensures var t := AtClock(day, hour, minute);
            && (t > from ==> t <= from + 7 * DAY)
            && (t <= from ==> from < AtClock(day + 7, hour, minute) <= from + 7 * DAY)
  {
  }

  /** Each date is matched by exactly one of the seven days. */
  lemma OneDayMatches(minute: string, hour: string, d: Date, w: nat)
    requires Numeral(minute) && Numeral(hour) && ValidDate(d) && w <= 6
    ensures PlanOk(Weekly(minute, hour, Itoa(w)))
    ensures DateFits(Weekly(minute, hour, Itoa(w)), d) <==> w == ZellerDay(d)
  {
    ValueOfItoa(w);
    WeeklyFits(minute, hour, Itoa(w), d);
  }

  lemma NumeralIs(w: nat)
    requires w < TWO63
    ensures Numeral(Itoa(w)) && Value(Itoa(w)) == w
  {
    ValueOfItoa(w);
  }

  /** 1 January 1970 was a Thursday: of the seven weekly schedules at midnight only "0 0 * * 4" matches its first
      minute. */
  lemma FirstThursday(w: nat)
    requires w <= 6
    ensures ScheduleMatch(ScheduleOf(Weekly(Itoa(0), Itoa(0), Itoa(w))), 0) <==> w == 4
  {
    NumeralIs(0);
    NumeralIs(w);
    var p := Weekly(Itoa(0), Itoa(0), Itoa(w));
    var d := Date(1970, 1, 1);
    assert DateOf(0) == d && ZellerDay(d) == 4;
    OneDayMatches(Itoa(0), Itoa(0), d, w);
    MidnightFits(p, Itoa(0), Itoa(0));
    ScheduleMeans(p, 0, 0, 0, 0);
  }

  lemma ThursdayText()
    ensures PlanText(Weekly("0", "0", "4")) == "0 0 * * 4"
  {
  }

  lemma MidnightFits(p: Plan, minute: string, hour: string)
    requires PlanOk(p) && p.minute == [One(minute)] && p.hour == [One(hour)] && Numeral(minute) && Numeral(hour)
    ensures ClockFits(p, 0, 0) <==> Value(minute) == 0 && Value(hour) == 0
  {
    OneDenotes(minute, 0, 0, 59);
    OneDenotes(hour, 0, 0, 23);
  }
}
