/** What the written forms of a cron field mean. */
module CronMeaning {
  import opened Basics
  import opened Text
  import opened Decimal
  import opened CronFields

  /** What reading a written term yields. */
  function ItemOf(t: Term): Item
    requires WellFormed(t)
  {
    match t
    case All => Every(1)
    case AllStep(s) => Every(Value(s))
    case One(n) => From(Value(n), 1)
    case OneStep(n, s) => From(Value(n), Value(s))
    case Range(a, b) => Span(Value(a), Value(b), 1)
    case RangeStep(a, b, s) => Span(Value(a), Value(b), Value(s))
  }

  predicate Mark(c: char) {
    IsDigit(c) || c == '*' || c == '-' || c == '/'
  }

  lemma WrittenMarks(t: Term)
    requires WellFormed(t)
    ensures Written(t) != "" && forall c :: c in Written(t) ==> Mark(c)
    ensures '/' !in Base(t) && Base(t) != ""
    ensures t.All? || IsDigit(Written(t)[|Written(t)| - 1])
  {
  }

  lemma NoSlash(s: string)
    requires '/' !in s
    ensures Index(s, "/") < 0
  {
    IndexFirst(s, "/");
    var i := Index(s, "/");
    if i >= 0 { AtChar(s, i, '/'); }
  }

  lemma StepReads(base: string, s: string)
    requires '/' !in base && Step(s)
    ensures ReadStep(base + "/" + s) == Some((base, Value(s)))
  {
    CutAt(base, '/', s);
    ScanNumeral(s, "");
    assert s + "" == s;
  }

  lemma NumeralReads(n: string, step: int)
    requires Numeral(n)
    ensures ReadBase(n, step) == Some(From(Value(n), step))
  {
    ScanNumeral(n, "");
    assert n + "" == n;
    IndexFirst(n, "-");
    var i := Index(n, "-");
    if i >= 0 { AtChar(n, i, '-'); }
    assert IsDigit(n[0]);
  }

  lemma RangeReads(a: string, b: string, step: int)
    requires Numeral(a) && Numeral(b)
    ensures ReadBase(a + "-" + b, step) == Some(Span(Value(a), Value(b), step))
  {
    var base := a + "-" + b;
    SpanReads(a, b);
    CutAt(a, '-', b);
    assert IsDigit(base[0]);
  }

  lemma SpanReads(a: string, b: string)
    requires Numeral(a) && Numeral(b)
    ensures ReadSpan(a + "-" + b) == Some((Value(a), Value(b)))
  {
    assert a + "-" + b == a + ("-" + b) && ("-" + b)[1..] == b && b + "" == b;
    ScanNumeral(a, "-" + b);
    ScanNumeral(b, "");
  }

  lemma BaseReads(t: Term, step: int)
    requires WellFormed(t)
    ensures ReadBase(Base(t), step) ==
            Some(match t
                 case All => Every(step)
                 case AllStep(_) => Every(step)
                 case One(n) => From(Value(n), step)
                 case OneStep(n, _) => From(Value(n), step)
                 case Range(a, b) => Span(Value(a), Value(b), step)
                 case RangeStep(a, b, _) => Span(Value(a), Value(b), step))
  {
    match t
    case All =>
    case AllStep(_) =>
    case One(n) => NumeralReads(n, step);
    case OneStep(n, _) => NumeralReads(n, step);
    case Range(a, b) => RangeReads(a, b, step);
    case RangeStep(a, b, _) => RangeReads(a, b, step);
  }

  /** Reading undoes writing. */
  lemma ReadWritten(t: Term)
    requires WellFormed(t)
    ensures ReadPart(Written(t)) == Some(ItemOf(t))
  {
    WrittenMarks(t);
    var w := Written(t);
    assert !IsSpace(w[0]) && !IsSpace(w[|w| - 1]) by { assert w[0] in w && w[|w| - 1] in w; }
    TrimSpaceId(w);
    match t
    case All => NoSlash(w); BaseReads(t, 1);
    case One(_) => NoSlash(w); BaseReads(t, 1);
    case Range(_, _) => NoSlash(w); BaseReads(t, 1);
    case AllStep(s) => StepReads(Base(t), s); BaseReads(t, Value(s));
    case OneStep(_, s) => StepReads(Base(t), s); BaseReads(t, Value(s));
    case RangeStep(_, _, s) => StepReads(Base(t), s); BaseReads(t, Value(s));
  }

  lemma OnStepIs(value: int, first: int, step: int)
    requires step >= 1 && first <= value && value - first < TWO63
    ensures OnStep(value - first, step) <==> Reached(value, first, step)
  {
    ReachedIs(value, first, step);
  }

  /** The test computes membership in what the term denotes, for every value of the field. */
  lemma HoldsDenotes(t: Term, value: int, min: int, max: int)
    requires WellFormed(t) && 0 <= min <= value <= max < TWO63
    ensures Holds(ItemOf(t), value, min, max) <==> Denotes(t, value, min, max)
  {
    match t
    case All => assert Wrap64(value - min) % 1 == 0;
    case AllStep(s) => OnStepIs(value, min, Value(s));
    case One(n) =>
    case OneStep(n, s) =>
      ReachedIs(value, Value(n), Value(s));
      if value >= Value(n) { OnStepIs(value, Value(n), Value(s)); }
    case Range(a, b) => if value >= Value(a) { OnStepIs(value, Value(a), 1); ReachedIs(value, Value(a), 1); }
    case RangeStep(a, b, s) =>
      ReachedIs(value, Value(a), Value(s));
      if value >= Value(a) { OnStepIs(value, Value(a), Value(s)); }
  }

  function WrittenAll(terms: seq<Term>): (r: seq<string>)
    ensures |r| == |terms| && forall i :: 0 <= i < |r| ==> r[i] == Written(terms[i])
  {
    seq(|terms|, i requires 0 <= i < |terms| => Written(terms[i]))
  }

  function Field(terms: seq<Term>): string {
    Join(WrittenAll(terms), ",")
  }

  ghost predicate AnyDenotes(terms: seq<Term>, value: int, min: int, max: int)
    requires forall t :: t in terms ==> WellFormed(t)
  {
    exists t :: t in terms && Denotes(t, value, min, max)
  }

  lemma TermsHold(terms: seq<Term>, value: int, min: int, max: int)
    requires (forall t :: t in terms ==> WellFormed(t)) && 0 <= min <= value <= max < TWO63
    ensures AnyHolds(WrittenAll(terms), value, min, max) <==> AnyDenotes(terms, value, min, max)
  {
    var parts := WrittenAll(terms);
    forall i | 0 <= i < |terms|
      ensures ReadPart(parts[i]).Some? && (PartHolds(parts[i], value, min, max) <==> Denotes(terms[i], value, min, max))
    {
      assert terms[i] in terms;
      ReadWritten(terms[i]);
      HoldsDenotes(terms[i], value, min, max);
    }
    AnyHoldsMeans(parts, value, min, max);
    if AnyDenotes(terms, value, min, max) {
      var t :| t in terms && Denotes(t, value, min, max);
      var i :| 0 <= i < |terms| && terms[i] == t;
      assert parts[i] in parts && PartHolds(parts[i], value, min, max);
    }
    if p :| p in parts && PartHolds(p, value, min, max) {
      var i :| 0 <= i < |parts| && parts[i] == p;
      assert terms[i] in terms && Denotes(terms[i], value, min, max);
    }
  }

  lemma PartsAreClean(terms: seq<Term>)
    requires forall t :: t in terms ==> WellFormed(t)
    ensures var parts := WrittenAll(terms);
            forall i :: 0 <= i < |parts| ==> Clean(parts[i], ",") && parts[i] != "" && forall c :: c in parts[i] ==> Mark(c)
  {
    var parts := WrittenAll(terms);
    forall i | 0 <= i < |parts| ensures Clean(parts[i], ",") && parts[i] != "" && forall c :: c in parts[i] ==> Mark(c) {
      assert terms[i] in terms;
      WrittenMarks(terms[i]);
      CleanChar(parts[i], ',');
    }
  }

  lemma MarksAreTrimmed(f: string)
    requires f != "" && forall c :: c in f ==> Mark(c) || c == ','
    ensures TrimSpace(f) == f && f != "?"
  {
    assert f[0] in f && f[|f| - 1] in f;
    TrimSpaceId(f);
  }

  lemma FieldIsTrimmed(terms: seq<Term>)
    requires |terms| >= 1 && forall t :: t in terms ==> WellFormed(t)
    ensures var f := Field(terms); TrimSpace(f) == f && Split(f, ",") == WrittenAll(terms) && f != "?"
  {
    PartsAreClean(terms);
    SplitJoin(WrittenAll(terms), ",");
    JoinMarks(WrittenAll(terms));
    MarksAreTrimmed(Field(terms));
  }

  lemma StarIsAll(terms: seq<Term>)
    requires |terms| >= 1 && forall t :: t in terms ==> WellFormed(t)
    requires Field(terms) == "*"
    ensures All in terms
  {
    assert terms[0] in terms;
    WrittenMarks(terms[0]);
    JoinLong(WrittenAll(terms));
    assert Written(terms[0]) == "*";
  }

  lemma {:induction false} JoinMarks(parts: seq<string>)
    requires |parts| >= 1 && forall i :: 0 <= i < |parts| ==> parts[i] != "" && forall c :: c in parts[i] ==> Mark(c)
    ensures Join(parts, ",") != "" && forall c :: c in Join(parts, ",") ==> Mark(c) || c == ','
  {
    if |parts| > 1 { JoinMarks(parts[1..]); }
  }

  lemma JoinLong(parts: seq<string>)
    requires |parts| >= 1 && parts[0] != ""
    ensures |parts| > 1 ==> |Join(parts, ",")| > 1
    ensures |parts| == 1 ==> Join(parts, ",") == parts[0]
  {
  }

  /** A field written as a list of terms matches exactly the values some term denotes. */
  lemma FieldMeaning(terms: seq<Term>, value: int, min: int, max: int)
    requires |terms| >= 1 && (forall t :: t in terms ==> WellFormed(t)) && 0 <= min <= value <= max < TWO63
    ensures FieldMatch(Field(terms), value, min, max) <==> AnyDenotes(terms, value, min, max)
  {
    FieldIsTrimmed(terms);
    TermsHold(terms, value, min, max);
    if Field(terms) == "*" {
      StarIsAll(terms);
      assert Denotes(All, value, min, max);
    }
  }

  /** The order of the terms, and writing one twice, make no difference. */
  lemma FieldOrder(a: seq<Term>, b: seq<Term>, value: int, min: int, max: int)
    requires |a| >= 1 && |b| >= 1 && (forall t :: t in a ==> WellFormed(t)) && (forall t :: t in a <==> t in b)
    requires 0 <= min <= value <= max < TWO63
    ensures FieldMatch(Field(a), value, min, max) == FieldMatch(Field(b), value, min, max)
  {
    FieldMeaning(a, value, min, max);
    FieldMeaning(b, value, min, max);
  }
}
