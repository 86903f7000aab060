/** How schedules and the parts of their fields read, whatever their text: what counts as a word, a number, a range and
    a step. */
module CronGrammar {
  import opened Basics
  import opened Text
  import opened Decimal
  import opened CronFields
  import opened Cron
  import opened CronDates

  // ---------- numbers ----------

  /** A numeral as it stands in a text: a sign or none, digits, and the text after it. */
  datatype Signed = Signed(sign: string, digits: string, rest: string)

  function Plainly(n: Signed): string {
    n.sign + n.digits + n.rest
  }

  predicate SignedOk(n: Signed) {
    && (n.sign == "" || n.sign == "+" || n.sign == "-") && n.digits != "" && AllDigits(n.digits)
    && (n.rest == "" || !IsDigit(n.rest[0]))
  }

  function SignedValue(n: Signed): int
    requires SignedOk(n)
  {
    if n.sign == "-" then -(Value(n.digits) as int) else Value(n.digits)
  }

  /** `s` begins with all the digits of a numeral for `v` that fits in 64 bits, and `rest` follows. */
  ghost predicate Scans(s: string, v: int, rest: string) {
    -TWO63 <= v < TWO63 && exists n :: SignedOk(n) && Plainly(n) == s && SignedValue(n) == v && n.rest == rest
  }

  lemma ScanDigits(digits: string, rest: string)
    requires AllDigits(digits) && digits != "" && (rest == "" || !IsDigit(rest[0]))
    ensures var d := digits + rest; DigitsLength(d) == |digits| && d[..|digits|] == digits && d[|digits|..] == rest && IsDigit(d[0])
  {
    DigitsThenStop(digits, rest);
  }

  lemma ScanOf(n: Signed)
    requires SignedOk(n)
    ensures ScanInt(Plainly(n)) == if -TWO63 <= SignedValue(n) < TWO63 then Some((SignedValue(n), n.rest)) else None
  {
    ScanDigits(n.digits, n.rest);
    if n.sign == "" {
      assert Plainly(n) == n.digits + n.rest;
    } else {
      assert Plainly(n) == n.sign + (n.digits + n.rest);
      assert Plainly(n)[0] == n.sign[0] && Plainly(n)[1..] == n.digits + n.rest;
    }
  }

  lemma DigitsForm(s: string) returns (digits: string, rest: string)
    requires DigitsLength(s) > 0
    ensures s == digits + rest && digits != "" && AllDigits(digits) && (rest == "" || !IsDigit(rest[0]))
  {
    DigitsLengthMeans(s);
    digits, rest := s[..DigitsLength(s)], s[DigitsLength(s)..];
  }

  lemma ScannedForm(s: string) returns (n: Signed)
    requires ScanInt(s).Some?
    ensures SignedOk(n) && Plainly(n) == s
  {
    if s[0] == '+' || s[0] == '-' {
      var digits, rest := DigitsForm(s[1..]);
      n := Signed(s[..1], digits, rest);
      assert s == s[..1] + s[1..];
    } else {
      var digits, rest := DigitsForm(s);
      n := Signed("", digits, rest);
      assert "" + digits == digits;
    }
  }

  /** Scanning reads exactly such a numeral. */
  lemma ScanMeans(s: string, v: int, rest: string)
    ensures ScanInt(s) == Some((v, rest)) <==> Scans(s, v, rest)
  {
    if Scans(s, v, rest) {
      var n :| SignedOk(n) && Plainly(n) == s && SignedValue(n) == v && n.rest == rest;
      ScanOf(n);
    }
    if ScanInt(s) == Some((v, rest)) {
      var n := ScannedForm(s);
      ScanOf(n);
    }
  }

  // ---------- parts ----------

  /** Two numerals with a dash between them; what follows the second does not matter. */
  ghost predicate Ranges(base: string, low: int, high: int) {
    exists next, rest :: Scans(base, low, "-" + next) && Scans(next, high, rest)
  }

  /** What the text before the slash says. A numeral counts up to its last digit, whatever follows it. */
  ghost predicate SaysBase(base: string, step: int, item: Item) {
    match item
    case Blank => false
    case Every(k) => k == step && base == "*"
    case Span(low, high, k) => k == step && '-' in base && Ranges(base, low, high)
    case From(first, k) => k == step && '-' !in base && exists rest :: Scans(base, first, rest)
  }

  /** What a trimmed part says. A step is a positive numeral after the first slash. */
  ghost predicate Says(part: string, item: Item) {
    if part == "" then item == Blank
    else if '/' !in part then SaysBase(part, 1, item)
    else exists base, text, step, rest :: Stepped(part, base, text, step, rest) && SaysBase(base, step, item)
  }

  ghost predicate Stepped(part: string, base: string, text: string, step: int, rest: string) {
    part == base + "/" + text && '/' !in base && step >= 1 && Scans(text, step, rest)
  }

  lemma SpanMeans(base: string, low: int, high: int)
    ensures ReadSpan(base) == Some((low, high)) <==> Ranges(base, low, high)
  {
    if Ranges(base, low, high) {
      var next, rest :| Scans(base, low, "-" + next) && Scans(next, high, rest);
      ScanMeans(base, low, "-" + next);
      ScanMeans(next, high, rest);
      assert ("-" + next)[1..] == next;
    }
    if ReadSpan(base) == Some((low, high)) {
      var a := ScanInt(base).value;
      var next := a.1[1..];
      assert a.1 == "-" + next;
      ScanMeans(base, low, "-" + next);
      ScanMeans(next, high, ScanInt(next).value.1);
    }
  }

  lemma BaseMeans(base: string, step: int, item: Item)
    ensures ReadBase(base, step) == Some(item) <==> SaysBase(base, step, item)
  {
    ContainsChar(base, '-');
    match item {
      case Blank =>
      case Every(_) =>
      case Span(low, high, _) => SpanMeans(base, low, high);
      case From(first, _) =>
        if SaysBase(base, step, item) {
          var rest :| Scans(base, first, rest);
          ScanMeans(base, first, rest);
        }
        if ReadBase(base, step) == Some(item) { ScanMeans(base, first, ScanInt(base).value.1); }
    }
  }

  lemma SteppedReads(part: string, base: string, text: string, step: int, rest: string)
    requires Stepped(part, base, text, step, rest)
    ensures ReadStep(part) == Some((base, step)) && part != "" && '/' in part
  {
    CutAt(base, '/', text);
    ScanMeans(text, step, rest);
    assert part[|base|] == '/';
  }

  lemma StepIs(part: string) returns (text: string, rest: string)
    requires ReadStep(part).Some? && '/' in part
    ensures Stepped(part, ReadStep(part).value.0, text, ReadStep(part).value.1, rest)
  {
    ContainsChar(part, '/');
    var i := Index(part, "/");
    IndexFirst(part, "/");
    AtChar(part, i, '/');
    text := part[i + 1..];
    rest := ScanInt(text).value.1;
    ScanMeans(text, ReadStep(part).value.1, rest);
    forall j | 0 <= j < i ensures part[j] != '/' { AtChar(part, j, '/'); }
  }

  /** A part reads as an item exactly when it says it; every other part is unreadable. */
  lemma PartMeans(raw: string, item: Item)
    ensures ReadPart(raw) == Some(item) <==> Says(TrimSpace(raw), item)
  {
    var part := TrimSpace(raw);
    ContainsChar(part, '/');
    if part != "" && '/' !in part {
      BaseMeans(part, 1, item);
    } else if part != "" {
      if Says(part, item) {
        var base, text, step, rest :| Stepped(part, base, text, step, rest) && SaysBase(base, step, item);
        SteppedReads(part, base, text, step, rest);
        BaseMeans(base, step, item);
      }
      if ReadPart(raw) == Some(item) {
        var text, rest := StepIs(part);
        BaseMeans(ReadStep(part).value.0, ReadStep(part).value.1, item);
      }
    }
  }

  // ---------- schedules ----------

  /** The text is these words, one after the other, with white space between and around them. */
  ghost predicate Spaced(s: string, words: seq<string>)
    decreases |words|
  {
    if words == [] then AllSpaces(s)
    else exists space, rest :: AllSpaces(space) && s == space + words[0] + rest && Word(words[0]) && WordEnds(rest) && Spaced(rest, words[1..])
  }

  lemma {:induction false} WordAtStart(t: string)
    ensures SpaceFree(t[..WordLength(t)]) && WordEnds(t[WordLength(t)..])
  {
    if t != "" && !IsSpace(t[0]) {
      WordAtStart(t[1..]);
      assert t[..WordLength(t)] == [t[0]] + t[1..][..WordLength(t[1..])];
      assert t[WordLength(t)..] == t[1..][WordLength(t[1..])..];
    }
  }

  lemma FirstField(s: string) returns (space: string, word: string, rest: string)
    requires Fields(s) != []
    ensures AllSpaces(space) && Word(word) && WordEnds(rest) && s == space + word + rest && Fields(s) == [word] + Fields(rest)
  {
    LeadingSpacesMax(s);
    var t := TrimLeft(s);
    WordAtStart(t);
    space, word, rest := s[..LeadingSpaces(s)], t[..WordLength(t)], t[WordLength(t)..];
    assert s == space + t && t == word + rest;
    FieldsStep(s, space, word, rest);
  }

  lemma {:induction false} FieldsMean(s: string, words: seq<string>)
    ensures Fields(s) == words <==> Spaced(s, words)
    decreases |words|
  {
    if words == [] {
      LeadingSpacesMax(s);
      if AllSpaces(s) { BlankLeads(s); }
    } else {
      if Spaced(s, words) {
        var space, rest :| AllSpaces(space) && s == space + words[0] + rest && Word(words[0]) && WordEnds(rest) && Spaced(rest, words[1..]);
        FieldsStep(s, space, words[0], rest);
        FieldsMean(rest, words[1..]);
      }
      if Fields(s) == words {
        var space, word, rest := FirstField(s);
        assert words[1..] == Fields(rest);
        FieldsMean(rest, words[1..]);
      }
    }
  }

  lemma BlankLeads(s: string)
    requires AllSpaces(s)
    ensures LeadingSpaces(s) == |s|
  {
    LeadingBlank(s, "");
    assert s + "" == s;
  }

  /** A text is a schedule exactly when it is five words, and these are its fields. */
  lemma ScheduleReads(text: string, s: Schedule)
    ensures ParseSchedule(text) == Some(s) <==> Spaced(TrimSpace(text), [s.minute, s.hour, s.day, s.month, s.weekday])
  {
    FieldsMean(TrimSpace(text), [s.minute, s.hour, s.day, s.month, s.weekday]);
  }
}
