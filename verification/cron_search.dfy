/** The bounded search for the next matching minute. Minutes are numbered from the Unix epoch; which of
    them match is a parameter. */
module CronSearch {
  import opened Basics

  const MINUTE: int := 60 * SECOND

  /** Two years of 366 days, in minutes. */
  const HORIZON: nat := 60 * 24 * 366 * 2

  type Matches = int -> bool

  /** The first matching minute from `m` on, before `end`. */
  function Scan(matches: Matches, m: int, end: int): Option<int>
    decreases end - m
  {
    if m >= end then None
    else if matches(m) then Some(m)
    else Scan(matches, m + 1, end)
  }

  /** `from.Add(time.Minute).Truncate(time.Minute)`, as a minute. */
  function After(from: Instant): int {
    (from + MINUTE) / MINUTE
  }

  function NextMinute(matches: Matches, from: Instant): Option<int> {
    Scan(matches, After(from), After(from) + HORIZON)
  }

  lemma {:induction false} ScanFirst(matches: Matches, m: int, end: int)
    ensures match Scan(matches, m, end)
            case Some(r) => m <= r < end && matches(r) && forall x :: m <= x < r ==> !matches(x)
            case None => forall x :: m <= x < end ==> !matches(x)
    decreases end - m
  {
    if m < end && !matches(m) { ScanFirst(matches, m + 1, end); }
  }

  /** One turn of the loop, at the instant `t` of the `i`th minute. */
  lemma ScanStep(matches: Matches, from: Instant, i: nat, t: Instant)
    requires i < HORIZON && t == (After(from) + i) * MINUTE
    ensures t % MINUTE == 0 && (t + MINUTE) == (After(from) + i + 1) * MINUTE
    ensures var end := After(from) + HORIZON;
            Scan(matches, After(from) + i, end) == if matches(t / MINUTE) then Some(t / MINUTE) else Scan(matches, After(from) + i + 1, end)
    ensures t / MINUTE * MINUTE == t
  {
    assert t / MINUTE == After(from) + i;
  }

  lemma AfterIsFirst(from: Instant, m: int)
    ensures m >= After(from) <==> m * MINUTE > from
  {
  }

  /** The search finds the least matching minute strictly after `from`, and fails only if none of the next
      1,054,080 minutes matches. */
  lemma NextIsLeast(matches: Matches, from: Instant)
    ensures match NextMinute(matches, from)
            case Some(r) => matches(r) && r * MINUTE > from && forall x :: matches(x) && x * MINUTE > from ==> r <= x
            case None => forall x :: After(from) <= x < After(from) + 1_054_080 ==> !matches(x)
    ensures forall x :: After(from) <= x < After(from) + 1_054_080 && matches(x) ==> NextMinute(matches, from).Some?
  {
    ScanFirst(matches, After(from), After(from) + HORIZON);
    var next := NextMinute(matches, from);
    if next.Some? {
      AfterIsFirst(from, next.value);
      forall x | matches(x) && x * MINUTE > from ensures next.value <= x { AfterIsFirst(from, x); }
    }
  }

  lemma FoundWithin(matches: Matches, from: Instant, m: int)
    requires matches(m) && After(from) <= m < After(from) + HORIZON
    ensures NextMinute(matches, from).Some? && After(from) <= NextMinute(matches, from).value <= m
  {
    ScanFirst(matches, After(from), After(from) + HORIZON);
  }

  lemma NoneFound(matches: Matches, from: Instant)
    requires forall x :: After(from) <= x < After(from) + HORIZON ==> !matches(x)
    ensures NextMinute(matches, from) == None
  {
    ScanFirst(matches, After(from), After(from) + HORIZON);
  }

  lemma NextMonotone(matches: Matches, from: Instant, later: Instant)
    requires from <= later && NextMinute(matches, from).Some? && NextMinute(matches, later).Some?
    ensures NextMinute(matches, from).value <= NextMinute(matches, later).value
  {
    NextIsLeast(matches, from);
    NextIsLeast(matches, later);
  }

  lemma AfterMonotone(a: Instant, b: Instant)
    requires a <= b
    ensures After(a) <= After(b)
  {
  }

  lemma ScanFinds(matches: Matches, m: int, end: int, r: int)
    requires m <= r < end && matches(r) && forall x :: m <= x < r ==> !matches(x)
    ensures Scan(matches, m, end) == Some(r)
  {
    ScanFirst(matches, m, end);
  }

  /** Between an instant and the minute found from it, every search finds that same minute. */
  lemma NextStable(matches: Matches, from: Instant, later: Instant)
    requires from <= later && NextMinute(matches, from).Some?
    ensures NextMinute(matches, later) == NextMinute(matches, from) <==> later < NextMinute(matches, from).value * MINUTE
  {
    var r := NextMinute(matches, from).value;
    if later < r * MINUTE {
      ScanFirst(matches, After(from), After(from) + HORIZON);
      AfterMonotone(from, later);
      AfterIsFirst(later, r);
      ScanFinds(matches, After(later), After(later) + HORIZON, r);
    } else {
      NextIsLeast(matches, later);
    }
  }

  // ---------- searching again from each result ----------

  /** Up to `n` results, each found from the one before. */
  function Runs(matches: Matches, from: Instant, n: nat): seq<int>
    decreases n
  {
    if n == 0 then []
    else
      match NextMinute(matches, from)
      case None => []
      case Some(m) => [m] + Runs(matches, m * MINUTE, n - 1)
  }

  ghost predicate Ascending(s: seq<int>) {
    forall i, j :: 0 <= i < j < |s| ==> s[i] < s[j]
  }

  /** The instant the next search starts from. */
  function Last(from: Instant, runs: seq<int>): Instant {
    if runs == [] then from else runs[|runs| - 1] * MINUTE
  }

  /** `runs` is every matching minute after `from` up to its last, in order. */
  ghost predicate Enumerates(matches: Matches, from: Instant, runs: seq<int>) {
    && Ascending(runs)
    && forall x :: x in runs <==> matches(x) && from < x * MINUTE <= Last(from, runs)
  }

  lemma EnumeratesCons(matches: Matches, from: Instant, rest: seq<int>)
    requires NextMinute(matches, from).Some?
    requires Enumerates(matches, NextMinute(matches, from).value * MINUTE, rest)
    ensures var m := NextMinute(matches, from).value;
            Enumerates(matches, from, [m] + rest) && Last(from, [m] + rest) == Last(m * MINUTE, rest)
  {
    NextIsLeast(matches, from);
    var m := NextMinute(matches, from).value;
    var runs := [m] + rest;
    assert Last(from, runs) == Last(m * MINUTE, rest);
    LastNotBefore(m * MINUTE, rest);
    assert forall i :: 0 <= i < |rest| ==> rest[i] in rest;
    forall x ensures x in runs <==> matches(x) && from < x * MINUTE <= Last(from, runs) {
      assert x in runs <==> x == m || x in rest;
    }
  }

  /** Iterating enumerates the matching minutes in order, without skipping or repeating one, and stops
      before `n` only when the next 1,054,080 minutes hold none. */
  lemma {:induction false} RunsEnumerate(matches: Matches, from: Instant, n: nat)
    ensures var runs := Runs(matches, from, n);
            && |runs| <= n && Enumerates(matches, from, runs)
            && (|runs| < n ==> forall x :: After(Last(from, runs)) <= x < After(Last(from, runs)) + 1_054_080 ==> !matches(x))
    decreases n
  {
    NextIsLeast(matches, from);
    if n > 0 && NextMinute(matches, from).Some? {
      var m := NextMinute(matches, from).value;
      RunsEnumerate(matches, m * MINUTE, n - 1);
      EnumeratesCons(matches, from, Runs(matches, m * MINUTE, n - 1));
    }
  }

  lemma LastNotBefore(from: Instant, runs: seq<int>)
    requires forall x :: x in runs ==> from < x * MINUTE
    ensures from <= Last(from, runs)
  {
    if runs != [] { assert runs[|runs| - 1] in runs; }
  }

  /** No stretch of minutes between `start` and `target` as long as the horizon is without a match. */
  ghost predicate NoGap(matches: Matches, start: int, target: int) {
    forall x :: start <= x <= target ==> Within(matches, x)
  }

  ghost predicate Within(matches: Matches, x: int) {
    exists y :: x <= y < x + HORIZON && matches(y)
  }

  lemma {:induction false} Reaches(matches: Matches, from: Instant, target: int)
    requires matches(target) && target * MINUTE > from && NoGap(matches, After(from), target)
    ensures exists n: nat :: target in Runs(matches, from, n)
    decreases target - After(from)
  {
    AfterIsFirst(from, target);
    NextIsLeast(matches, from);
    assert Within(matches, After(from));
    var m := NextMinute(matches, from).value;
    if m == target {
      assert Runs(matches, from, 1) == [m] + [];
      assert target in Runs(matches, from, 1);
    } else {
      assert m < target && m * MINUTE < target * MINUTE;
      AfterMinute(m);
      ScanFirst(matches, After(from), After(from) + HORIZON);
      Reaches(matches, m * MINUTE, target);
      var n: nat :| target in Runs(matches, m * MINUTE, n);
      assert Runs(matches, from, n + 1) == [m] + Runs(matches, m * MINUTE, n);
      assert target in Runs(matches, from, n + 1);
    }
  }

  lemma AfterMinute(m: int)
    ensures After(m * MINUTE) == m + 1
  {
  }

  lemma {:induction false} ReachedNoGap(matches: Matches, from: Instant, target: int, n: nat)
    requires target in Runs(matches, from, n)
    ensures NoGap(matches, After(from), target)
    decreases n
  {
    ScanFirst(matches, After(from), After(from) + HORIZON);
    var m := NextMinute(matches, from).value;
    AfterMinute(m);
    forall x | After(from) <= x <= target ensures Within(matches, x) {
      if x > m {
        assert target in Runs(matches, m * MINUTE, n - 1);
        ReachedNoGap(matches, m * MINUTE, target, n - 1);
      }
    }
  }

  /** Iterating reaches a matching minute exactly when nothing before it is a gap as long as the horizon. */
  lemma ReachedExactly(matches: Matches, from: Instant, target: int)
    requires matches(target) && target * MINUTE > from
    ensures (exists n: nat :: target in Runs(matches, from, n)) <==> NoGap(matches, After(from), target)
  {
    if NoGap(matches, After(from), target) { Reaches(matches, from, target); }
    if n: nat :| target in Runs(matches, from, n) { ReachedNoGap(matches, from, target, n); }
  }
}
