/** One field of a cron expression: reading its parts and deciding whether a value matches. */
module CronFields {
  import opened Basics
  import opened Text
  import opened Decimal

  /** What a part of a field says, once read. */
  datatype Item = Blank | Every(step: int) | Span(low: int, high: int, step: int) | From(first: int, step: int)

  predicate SpaceFree(s: string) {
    forall c :: c in s ==> !IsSpace(c)
  }

  /** The step after a slash and the text before it; a part without a slash has step 1. */
  function ReadStep(part: string): Option<(string, int)> {
    var i := Index(part, "/");
    if i < 0 then Some((part, 1))
    else
      match ScanInt(part[i + 1..])
      case None => None
      case Some(step) => if step.0 < 1 then None else Some((part[..i], step.0))
  }

  /** Sscanf with the format `%d-%d`. */
  function ReadSpan(base: string): Option<(int, int)> {
    match ScanInt(base)
    case None => None
    case Some(a) =>
      if a.1 == "" || a.1[0] != '-' then None
      else
        match ScanInt(a.1[1..])
        case None => None
        case Some(b) => Some((a.0, b.0))
  }

  function ReadBase(base: string, step: int): Option<Item> {
    if base == "*" then Some(Every(step))
    else if Contains(base, "-") then
      match ReadSpan(base)
      case None => None
      case Some(s) => Some(Span(s.0, s.1, step))
    else
      match ScanInt(base)
      case None => None
      case Some(n) => Some(From(n.0, step))
  }

  /** One part between commas; `None` when it cannot be read. */
  function ReadPart(raw: string): Option<Item> {
    var part := TrimSpace(raw);
    if part == "" then Some(Blank)
    else
      match ReadStep(part)
      case None => None
      case Some(s) => ReadBase(s.0, s.1)
  }

  predicate Holds(item: Item, value: int, min: int, max: int) {
    match item
    case Blank => false
    case Every(step) => OnStep(value - min, step)
    case Span(low, high, step) => low <= value <= high && OnStep(value - low, step)
    case From(first, step) => if step > 1 then value >= first && OnStep(value - first, step) && value <= max else first == value
  }

  /** A 64-bit difference is a whole number of steps. */
  predicate OnStep(distance: int, step: int) {
    step >= 1 && Wrap64(distance) % step == 0
  }

  /** The first part that matches or cannot be read decides. */
  predicate AnyHolds(parts: seq<string>, value: int, min: int, max: int) {
    if parts == [] then false
    else
      match ReadPart(parts[0])
      case None => false
      case Some(item) => Holds(item, value, min, max) || AnyHolds(parts[1..], value, min, max)
  }

  predicate FieldMatch(raw: string, value: int, min: int, max: int) {
    var field := TrimSpace(raw);
    field == "*" || field == "?" || AnyHolds(Split(field, ","), value, min, max)
  }

  datatype Verdict = Hit | Miss | Unreadable

  function Judge(item: Option<Item>, value: int, min: int, max: int): Verdict {
    if item.None? then Unreadable else if Holds(item.value, value, min, max) then Hit else Miss
  }

  /** The loop body of cronFieldMatch after the step has been read. */
  method MatchBase(base: string, step: int, value: int, min: int, max: int) returns (v: Verdict)
    requires step >= 1
    ensures v == Judge(ReadBase(base, step), value, min, max)
  {
    if base == "*" {
      assert ReadBase(base, step) == Some(Every(step));
      return if OnStep(value - min, step) then Hit else Miss;
    }
    if Contains(base, "-") {
      var span := ReadSpan(base);
      if span.None? { return Unreadable; }
      var (a, b) := span.value;
      return if value >= a && value <= b && OnStep(value - a, step) then Hit else Miss;
    }
    var n := ScanInt(base);
    if n.None? { return Unreadable; }
    if step > 1 {
      return if value >= n.value.0 && OnStep(value - n.value.0, step) && value <= max then Hit else Miss;
    }
    v := if n.value.0 == value then Hit else Miss;
  }

  method MatchPart(raw: string, value: int, min: int, max: int) returns (v: Verdict)
    ensures v == Judge(ReadPart(raw), value, min, max)
  {
    var part := TrimSpace(raw);
    if part == "" { return Miss; }
    var step, base := 1, part;
    if Contains(part, "/") {
      var i := Index(part, "/");
      base := part[..i];
      var scanned := ScanInt(part[i + 1..]);
      if scanned.None? || scanned.value.0 < 1 { return Unreadable; }
      step := scanned.value.0;
    }
    v := MatchBase(base, step, value, min, max);
  }

  /** cronFieldMatch. Fields hold no white space: the schedule is split at it. */
  method CronFieldMatch(raw: string, value: int, min: int, max: int) returns (r: bool)
    requires SpaceFree(raw)
    ensures r == FieldMatch(raw, value, min, max)
  {
    var field := TrimSpace(raw);
    if field == "*" || field == "?" { return true; }
    var parts := Split(field, ",");
    for k := 0 to |parts|
      invariant AnyHolds(parts, value, min, max) == AnyHolds(parts[k..], value, min, max)
    {
      assert parts[k..][1..] == parts[k + 1..] && parts[k..][0] == parts[k];
      var verdict := MatchPart(parts[k], value, min, max);
      if verdict == Unreadable { return false; }
      if verdict == Hit { return true; }
    }
    r := false;
  }

  // ---------- the order of the parts ----------

  predicate Readable(parts: seq<string>) {
    forall p :: p in parts ==> ReadPart(p).Some?
  }

  predicate PartHolds(part: string, value: int, min: int, max: int) {
    ReadPart(part).Some? && Holds(ReadPart(part).value, value, min, max)
  }

  /** When every part can be read, the field matches exactly when some part does. */
  lemma {:induction false} AnyHoldsMeans(parts: seq<string>, value: int, min: int, max: int)
    requires Readable(parts)
    ensures AnyHolds(parts, value, min, max) <==> exists p :: p in parts && PartHolds(p, value, min, max)
  {
    if parts != [] {
      AnyHoldsMeans(parts[1..], value, min, max);
      assert parts == [parts[0]] + parts[1..];
      assert parts[0] in parts && ReadPart(parts[0]).Some?;
      if AnyHolds(parts[1..], value, min, max) {
        var p :| p in parts[1..] && PartHolds(p, value, min, max);
        assert p in parts;
      }
      if PartHolds(parts[0], value, min, max) { assert parts[0] in parts; }
    }
  }

  /** So neither the order of the parts nor repeating one matters. */
  lemma OrderOfParts(a: seq<string>, b: seq<string>, value: int, min: int, max: int)
    requires Readable(a) && forall p :: p in a <==> p in b
    ensures AnyHolds(a, value, min, max) == AnyHolds(b, value, min, max)
  {
    AnyHoldsMeans(a, value, min, max);
    AnyHoldsMeans(b, value, min, max);
  }

  /** A part that cannot be read ends the search: what stands after it is never looked at, so with one
      such part the order does matter. */
  lemma {:induction false} UnreadableEnds(before: seq<string>, bad: string, rest: seq<string>, value: int, min: int, max: int)
    requires Readable(before) && ReadPart(bad) == None
    ensures AnyHolds(before + [bad] + rest, value, min, max) == AnyHolds(before, value, min, max)
  {
    var all := before + [bad] + rest;
    if before == [] {
      assert all == [bad] + rest;
    } else {
      assert all[1..] == before[1..] + [bad] + rest;
      assert before[0] in before;
      UnreadableEnds(before[1..], bad, rest, value, min, max);
    }
  }

  // ---------- the written form and what it denotes ----------

  predicate Numeral(d: string) {
    d != "" && AllDigits(d) && Value(d) < TWO63
  }

  /** The documented forms of a part, with the numerals as they are written. */
  datatype Term =
    | All
    | AllStep(step: string)
    | One(n: string)
    | OneStep(n: string, step: string)
    | Range(low: string, high: string)
    | RangeStep(low: string, high: string, step: string)

  predicate Step(d: string) {
    Numeral(d) && Value(d) >= 1
  }

  predicate WellFormed(t: Term) {
    match t
    case All => true
    case AllStep(s) => Step(s)
    case One(n) => Numeral(n)
    case OneStep(n, s) => Numeral(n) && Step(s)
    case Range(a, b) => Numeral(a) && Numeral(b)
    case RangeStep(a, b, s) => Numeral(a) && Numeral(b) && Step(s)
  }

  function Base(t: Term): string {
    match t
    case All => "*"
    case AllStep(_) => "*"
    case One(n) => n
    case OneStep(n, _) => n
    case Range(a, b) => a + "-" + b
    case RangeStep(a, b, _) => a + "-" + b
  }

  function Written(t: Term): string {
    match t
    case AllStep(s) => Base(t) + "/" + s
    case OneStep(_, s) => Base(t) + "/" + s
    case RangeStep(_, _, s) => Base(t) + "/" + s
    case All => Base(t)
    case One(_) => Base(t)
    case Range(_, _) => Base(t)
  }

  /** `value` is `first` plus a whole number of steps. */
  ghost predicate Reached(value: int, first: int, step: int) {
    exists k: nat :: value == Along(first, step, k)
  }

  function Along(first: int, step: int, k: nat): int {
    first + k * step
  }

  /** The values a term stands for in a field from `min` to `max`. `n/s` runs on to the end of the field
      when s is more than 1, but `n/1` is `n` alone. */
  ghost predicate Denotes(t: Term, value: int, min: int, max: int)
    requires WellFormed(t)
  {
    match t
    case All => true
    case AllStep(s) => Reached(value, min, Value(s))
    case One(n) => value == Value(n)
    case OneStep(n, s) => if Value(s) == 1 then value == Value(n) else value <= max && Reached(value, Value(n), Value(s))
    case Range(a, b) => Value(a) <= value <= Value(b)
    case RangeStep(a, b, s) => value <= Value(b) && Reached(value, Value(a), Value(s))
  }

  lemma MultipleRemainder(k: nat, step: int)
    requires step >= 1
    ensures (k * step) % step == 0
    decreases k
  {
    if k > 0 {
      MultipleRemainder(k - 1, step);
      assert k * step == (k - 1) * step + step;
      assert ((k - 1) * step + step) % step == ((k - 1) * step) % step by { AddStep((k - 1) * step, step); }
    }
  }

  lemma AddStep(x: int, step: int)
    requires step >= 1 && x >= 0
    ensures (x + step) % step == x % step
  {
    var q, r := x / step, x % step;
    assert x + step == (q + 1) * step + r;
    QuotientUnique(x + step, step, q + 1, r);
  }

  lemma MultipleIsFar(d: int, step: int)
    requires step >= 1
    ensures d >= 1 ==> d * step >= step
    ensures d <= -1 ==> d * step <= -step
  {
  }

  lemma QuotientUnique(x: int, step: int, q: int, r: int)
    requires step >= 1 && 0 <= r < step && x == q * step + r
    ensures x % step == r
  {
    var d := x / step - q;
    assert x == (x / step) * step + x % step;
    assert d * step == r - x % step;
    MultipleIsFar(d, step);
  }

  lemma ReachedIs(value: int, first: int, step: int)
    requires step >= 1
    ensures Reached(value, first, step) <==> value >= first && (value - first) % step == 0
  {
    if Reached(value, first, step) {
      var k: nat :| value == Along(first, step, k);
      MultipleRemainder(k, step);
      assert k * step >= 0;
    }
    if value >= first && (value - first) % step == 0 {
      var k: nat := (value - first) / step;
      assert value == Along(first, step, k);
    }
  }
}
