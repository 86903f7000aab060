/** Five-field schedules in UTC, the search over them, and the jobs that carry them. */
module Cron {
  import opened Basics
  import opened Text
  import opened Decimal
  import opened Calendar
  import opened CronFields
  import opened CronMeaning
  import opened CronSearch

  datatype Schedule = Schedule(minute: string, hour: string, day: string, month: string, weekday: string)

  function ParseSchedule(text: string): Option<Schedule> {
    var f := Fields(TrimSpace(text));
    if |f| == 5 then Some(Schedule(f[0], f[1], f[2], f[3], f[4])) else None
  }

  const DAY_MINUTES: int := 1440

  predicate ClockMatch(s: Schedule, m: int) {
    FieldMatch(s.minute, m % 60, 0, 59) && FieldMatch(s.hour, (m / 60) % 24, 0, 23)
  }

  predicate DateMatch(s: Schedule, day: int) {
    && FieldMatch(s.day, DateOf(day).day, 1, 31) && FieldMatch(s.month, DateOf(day).month, 1, 12)
    && FieldMatch(s.weekday, Weekday(day), 0, 6)
  }

  /** All five fields match the minute; the two day fields are combined with "and". */
  predicate ScheduleMatch(s: Schedule, m: int) {
    ClockMatch(s, m) && DateMatch(s, m / DAY_MINUTES)
  }

  function Matcher(s: Schedule): Matches {
    m => ScheduleMatch(s, m)
  }

  function NextCronRun(text: string, from: Instant): Option<Instant> {
    match ParseSchedule(text)
    case None => None
    case Some(s) =>
      match NextMinute(Matcher(s), from)
      case None => None
      case Some(m) => Some(m * MINUTE)
  }

  lemma {:induction false} WordIsSpaceFree(s: string)
    ensures SpaceFree(s[..WordLength(s)])
  {
    if s != "" && !IsSpace(s[0]) {
      WordIsSpaceFree(s[1..]);
      assert s[..WordLength(s)] == [s[0]] + s[1..][..WordLength(s[1..])];
    }
  }

  lemma {:induction false} FieldsSpaceFree(s: string)
    ensures forall f :: f in Fields(s) ==> SpaceFree(f)
    decreases |s|
  {
    var t := TrimLeft(s);
    LeadingSpacesMax(s);
    if t != "" {
      WordIsSpaceFree(t);
      FieldsSpaceFree(t[WordLength(t)..]);
    }
  }

  predicate Spaceless(s: Schedule) {
    SpaceFree(s.minute) && SpaceFree(s.hour) && SpaceFree(s.day) && SpaceFree(s.month) && SpaceFree(s.weekday)
  }

  predicate Agrees(s: Schedule, matches: Matches, m: int) {
    matches(m) == ScheduleMatch(s, m)
  }

  method MinuteMatches(s: Schedule, t: Instant, ghost matches: Matches) returns (r: bool)
    requires Spaceless(s) && t % MINUTE == 0 && Agrees(s, matches, t / MINUTE)
    ensures r == matches(t / MINUTE)
  {
    var m := t / MINUTE;
    r := CronFieldMatch(s.minute, m % 60, 0, 59);
    if r { r := CronFieldMatch(s.hour, (m / 60) % 24, 0, 23); }
    var day := m / DAY_MINUTES;
    if r { r := CronFieldMatch(s.day, DateOf(day).day, 1, 31); }
    if r { r := CronFieldMatch(s.month, DateOf(day).month, 1, 12); }
    if r { r := CronFieldMatch(s.weekday, Weekday(day), 0, 6); }
  }

  /** The loop of nextCronRun. */
  method SearchMinutes(s: Schedule, from: Instant, ghost matches: Matches) returns (r: Option<Instant>)
    requires Spaceless(s) && forall m :: Agrees(s, matches, m)
    ensures r == match NextMinute(matches, from) case None => None case Some(m) => Some(m * MINUTE)
  {
    var t := (from + MINUTE) / MINUTE * MINUTE;
    for i := 0 to 60 * 24 * 366 * 2
      invariant t == (After(from) + i) * MINUTE
      invariant NextMinute(matches, from) == Scan(matches, After(from) + i, After(from) + HORIZON)
    {
      ScanStep(matches, from, i, t);
      var hit := MinuteMatches(s, t, matches);
      if hit { return Some(t); }
      t := t + MINUTE;
    }
    r := None;
  }

  /** nextCronRun in UTC. */
  method FindNextCronRun(text: string, from: Instant) returns (r: Option<Instant>)
    ensures r == NextCronRun(text, from)
  {
    var f := Fields(TrimSpace(text));
    if |f| != 5 { return None; }
    FieldsSpaceFree(TrimSpace(text));
    assert f[0] in f && f[1] in f && f[2] in f && f[3] in f && f[4] in f;
    var s := Schedule(f[0], f[1], f[2], f[3], f[4]);
    r := SearchMinutes(s, from, Matcher(s));
  }

  // ---------- every day ----------

  predicate EveryDay(s: Schedule) {
    s.day == "*" && s.month == "*" && s.weekday == "*"
  }

  lemma StarMatches(value: int, min: int, max: int)
    ensures FieldMatch("*", value, min, max)
  {
    TrimSpaceId("*");
  }

  lemma MinuteOfDay(from: Instant, hour: int, minute: int) returns (m: int)
    requires 0 <= hour < 24 && 0 <= minute < 60
    ensures After(from) <= m < After(from) + 1440 && m % 60 == minute && (m / 60) % 24 == hour
  {
    var a := After(from);
    var target := 60 * hour + minute;
    var d := a / 1440;
    m := 1440 * d + target;
    if m < a { m := m + 1440; }
    SplitMinute(m, m / 1440, hour, minute);
  }

  lemma SplitMinute(m: int, d: int, hour: int, minute: int)
    requires 0 <= hour < 24 && 0 <= minute < 60 && m == 1440 * d + 60 * hour + minute
    ensures m % 60 == minute && (m / 60) % 24 == hour
  {
    assert m / 60 == 24 * d + hour;
  }

  /** With `*` in the three day fields and some hour and minute that match, the next run is found among the
      first 1440 minutes. */
  lemma EveryDayIsFound(s: Schedule, from: Instant, hour: int, minute: int)
    requires EveryDay(s) && 0 <= hour < 24 && 0 <= minute < 60
    requires FieldMatch(s.hour, hour, 0, 23) && FieldMatch(s.minute, minute, 0, 59)
    ensures var next := NextMinute(Matcher(s), from);
            next.Some? && After(from) <= next.value < After(from) + 1440
  {
    var m := MinuteOfDay(from, hour, minute);
    var day := m / DAY_MINUTES;
    StarMatches(DateOf(day).day, 1, 31);
    StarMatches(DateOf(day).month, 1, 12);
    StarMatches(Weekday(day), 0, 6);
    FoundWithin(Matcher(s), from, m);
  }

  // ---------- 29 February ----------

  const LEAP_DAY_SCHEDULE: Schedule := Schedule("0", "0", "29", "2", "*")

  lemma MidnightClock(m: int)
    ensures ClockMatch(LEAP_DAY_SCHEDULE, m) <==> m % 1440 == 0
  {
    LiteralField("0", m % 60, 0, 59);
    LiteralField("0", (m / 60) % 24, 0, 23);
    SmallNumerals();
    MidnightIs(m);
  }

  lemma LeapDayDate(day: int)
    ensures DateMatch(LEAP_DAY_SCHEDULE, day) <==> DateOf(day).month == 2 && DateOf(day).day == 29
  {
    LiteralField("29", DateOf(day).day, 1, 31);
    LiteralField("2", DateOf(day).month, 1, 12);
    StarMatches(Weekday(day), 0, 6);
    SmallNumerals();
  }

  lemma LeapDayScheduleMeans(m: int)
    ensures ScheduleMatch(LEAP_DAY_SCHEDULE, m) <==>
              m % 1440 == 0 && DateOf(m / DAY_MINUTES).month == 2 && DateOf(m / DAY_MINUTES).day == 29
  {
    MidnightClock(m);
    LeapDayDate(m / DAY_MINUTES);
  }

  lemma MidnightIs(m: int)
    ensures m % 60 == 0 && (m / 60) % 24 == 0 <==> m % 1440 == 0
  {
  }

  lemma SmallNumerals()
    ensures Value("0") == 0 && Value("2") == 2 && Value("29") == 29
  {
    assert "0"[..0] == "" && "2"[..0] == "" && "29"[..1] == "2";
  }

  lemma LiteralField(n: string, value: int, min: int, max: int)
    requires Numeral(n) && 0 <= min <= value <= max < TWO63
    ensures FieldMatch(n, value, min, max) <==> value == Value(n)
  {
    var terms := [One(n)];
    assert Field(terms) == n;
    FieldMeaning(terms, value, min, max);
    if value == Value(n) { assert terms[0] in terms && Denotes(terms[0], value, min, max); }
  }

  lemma NoneInYears(from: Instant, year: int)
    requires Leap(year)
    requires (LeapDay(year) + 1) * DAY_MINUTES <= After(from) && After(from) + HORIZON <= BeforeYear(year + 4) * DAY_MINUTES
    ensures NextMinute(Matcher(LEAP_DAY_SCHEDULE), from) == None
  {
    var matches := Matcher(LEAP_DAY_SCHEDULE);
    forall x | After(from) <= x < After(from) + HORIZON ensures !matches(x) { NoLeapDayAt(x, year); }
    NoneFound(matches, from);
  }

  /** A schedule can have a next run that the search does not find: after 29 February of a leap year and
      before the end of the year after it there is no other one within two years, although the next leap
      year has one. */
  lemma LeapDayMissed(from: Instant, year: int)
    requires Leap(year) && Leap(year + 4)
    requires LeapDay(year) + 1 <= from / (MINUTE * DAY_MINUTES) < BeforeYear(year + 2) - 2
    ensures NextMinute(Matcher(LEAP_DAY_SCHEDULE), from) == None
    ensures ScheduleMatch(LEAP_DAY_SCHEDULE, LeapDay(year + 4) * DAY_MINUTES) && LeapDay(year + 4) * DAY_MINUTES > After(from)
  {
    HorizonInYears(from, year);
    NoneInYears(from, year);
    LeapDayMatches(year + 4);
  }

  lemma HorizonInYears(from: Instant, year: int)
    requires Leap(year) && LeapDay(year) + 1 <= from / (MINUTE * DAY_MINUTES) < BeforeYear(year + 2) - 2
    ensures (LeapDay(year) + 1) * DAY_MINUTES <= After(from) && After(from) + HORIZON <= BeforeYear(year + 4) * DAY_MINUTES
    ensures After(from) < LeapDay(year + 4) * DAY_MINUTES
  {
    var day := from / (MINUTE * DAY_MINUTES);
    FourYears(year);
    AfterInDay(from);
    InYears(day, After(from), LeapDay(year), BeforeYear(year + 2), BeforeYear(year + 4));
  }

  lemma InYears(day: int, after: int, leapDay: int, year2: int, year4: int)
    requires leapDay + 1 <= day < year2 - 2 && year4 == year2 + 730 && day * DAY_MINUTES < after <= (day + 1) * DAY_MINUTES
    ensures (leapDay + 1) * DAY_MINUTES <= after && after + HORIZON <= year4 * DAY_MINUTES
    ensures after < (year4 + 59) * DAY_MINUTES
  {
  }

  lemma LeapDayMatches(year: int)
    requires Leap(year)
    ensures ScheduleMatch(LEAP_DAY_SCHEDULE, LeapDay(year) * DAY_MINUTES)
  {
    LeapDayIs(year);
    MidnightOf(LeapDay(year));
    LeapDayScheduleMeans(LeapDay(year) * DAY_MINUTES);
  }

  lemma MidnightOf(day: int)
    ensures (day * DAY_MINUTES) % 1440 == 0 && (day * DAY_MINUTES) / DAY_MINUTES == day
  {
  }

  lemma NoLeapDayAt(m: int, year: int)
    requires Leap(year) && LeapDay(year) < m / DAY_MINUTES < BeforeYear(year + 4)
    ensures !ScheduleMatch(LEAP_DAY_SCHEDULE, m)
  {
    var day := m / DAY_MINUTES;
    LeapDayScheduleMeans(m);
    if DateOf(day).month == 2 && DateOf(day).day == 29 { LeapDays(day, year); }
  }

  lemma AfterInDay(from: Instant)
    ensures var day := from / (MINUTE * DAY_MINUTES);
            day * DAY_MINUTES < After(from) <= (day + 1) * DAY_MINUTES
  {
  }

  // ---------- jobs ----------

  datatype Job = Job(schedule: string, lastAttempt: Option<Instant>, nextRun: Option<Instant>, updatedAt: Instant)

  function Marked(job: Job, now: Instant): Job {
    job.(lastAttempt := Some(now), nextRun := NextCronRun(job.schedule, now), updatedAt := now)
  }

  class Scheduler {
    var jobs: map<string, Job>

    constructor ()
      ensures jobs == map[]
    {
      jobs := map[];
    }

    method MarkSchedulerJobAttempt(name: string, now: Instant)
      modifies this
      ensures jobs == if name in old(jobs) then old(jobs)[name := Marked(old(jobs)[name], now)] else old(jobs)
    {
      if name !in jobs { return; }
      var job := jobs[name];
      var next := FindNextCronRun(job.schedule, now);
      jobs := jobs[name := job.(lastAttempt := Some(now), nextRun := next, updatedAt := now)];
    }
  }

  function MarkedAll(job: Job, times: seq<Instant>): Job {
    if times == [] then job else Marked(MarkedAll(job, times[..|times| - 1]), times[|times| - 1])
  }

  /** Each attempt is made when its run is due, and before the run after it is. */
  ghost predicate Prompt(matches: Matches, from: Instant, times: seq<Instant>) {
    var runs := Runs(matches, from, |times| + 1);
    |runs| == |times| + 1 && forall i :: 0 <= i < |times| ==> runs[i] * MINUTE <= times[i] < runs[i + 1] * MINUTE
  }

  lemma {:induction false} RunsStep(matches: Matches, from: Instant, n: nat, i: nat)
    requires i + 1 < |Runs(matches, from, n)|
    ensures var runs := Runs(matches, from, n); NextMinute(matches, runs[i] * MINUTE) == Some(runs[i + 1])
    decreases n
  {
    var m := NextMinute(matches, from).value;
    var rest := Runs(matches, m * MINUTE, n - 1);
    assert Runs(matches, from, n) == [m] + rest;
    if i > 0 {
      RunsStep(matches, m * MINUTE, n - 1, i - 1);
      assert Runs(matches, from, n)[i] == rest[i - 1] && Runs(matches, from, n)[i + 1] == rest[i];
    }
  }

  /** A job attempted promptly has, after every attempt, the run after it as its next run: attempts walk
      through the matching minutes with none skipped and none repeated. */
  lemma PromptAttempts(job: Job, s: Schedule, from: Instant, times: seq<Instant>)
    requires ParseSchedule(job.schedule) == Some(s) && times != [] && Prompt(Matcher(s), from, times)
    ensures var runs := Runs(Matcher(s), from, |times| + 1);
            |runs| == |times| + 1 && MarkedAll(job, times).nextRun == Some(runs[|times|] * MINUTE)
  {
    var n := |times|;
    var runs := Runs(Matcher(s), from, n + 1);
    MarkedKeepsSchedule(job, times[..n - 1]);
    RunsStep(Matcher(s), from, n + 1, n - 1);
    NextStable(Matcher(s), runs[n - 1] * MINUTE, times[n - 1]);
  }

  lemma {:induction false} MarkedKeepsSchedule(job: Job, times: seq<Instant>)
    ensures MarkedAll(job, times).schedule == job.schedule
  {
    if times != [] { MarkedKeepsSchedule(job, times[..|times| - 1]); }
  }

  /** An attempt made once the run after the due one is due too skips that run, and only then. */
  lemma LateAttemptSkips(s: Schedule, due: int, now: Instant)
    requires due * MINUTE <= now && NextMinute(Matcher(s), due * MINUTE).Some?
    ensures NextMinute(Matcher(s), now) != NextMinute(Matcher(s), due * MINUTE) <==> now >= NextMinute(Matcher(s), due * MINUTE).value * MINUTE
  {
    NextStable(Matcher(s), due * MINUTE, now);
  }
}
