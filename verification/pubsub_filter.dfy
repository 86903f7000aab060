/** Subscription filters: `attributes.key = "value"` terms combined with AND. */
module PubSubFilter {
  import opened Basics
  import opened Text

  type Attributes = map<string, string>

  datatype FilterError = NotAnAttribute | MissingEquals | EmptyKey | UnquotedValue

  type Parsed = Result<Attributes, FilterError>

  /** One written equality. */
  datatype Equality = Equality(key: string, value: string)

  const PREFIX: string := "attributes."
  const AND: string := " AND "

  /** What the two sides of the first `=` mean. */
  function ReadSides(left: string, right: string): Result<Equality, FilterError> {
    var key, valRaw := TrimSpace(left), TrimSpace(right);
    if key == "" then Err(EmptyKey)
    else if |valRaw| < 2 || valRaw[0] != '"' || valRaw[|valRaw| - 1] != '"' then Err(UnquotedValue)
    else Ok(Equality(key, valRaw[1..|valRaw| - 1]))
  }

  /** What follows the prefix of a term: a key, `=`, and a quoted value. */
  function ParseEquality(rest: string): Result<Equality, FilterError> {
    var eq := Index(rest, "=");
    if eq < 0 then Err(MissingEquals) else ReadSides(rest[..eq], rest[eq + 1..])
  }

  function ParseTerm(raw: string): Result<Equality, FilterError> {
    var part := TrimSpace(raw);
    if !(PREFIX <= part) then Err(NotAnAttribute)
    else ParseEquality(TrimSpace(part[|PREFIX|..]))
  }

  /** The equalities a filter writes down, in order; the first bad term decides the error. */
  function Written(filter: string): Result<seq<Equality>, FilterError> {
    var f := TrimSpace(filter);
    if f == "" then Ok([]) else ReadAll(Split(f, AND), ParseTerm)
  }

  /** The map a list of equalities fills: a repeated key keeps its last value. */
  function ToMap(ts: seq<Equality>): Attributes {
    if ts == [] then map[]
    else ToMap(ts[..|ts| - 1])[ts[|ts| - 1].key := ts[|ts| - 1].value]
  }

  lemma ToMapSnoc(ts: seq<Equality>, t: Equality)
    ensures ToMap(ts + [t]) == ToMap(ts)[t.key := t.value]
  {
    assert (ts + [t])[..|ts|] == ts;
  }

  function ParseFilter(filter: string): Parsed {
    match Written(filter)
    case Err(e) => Err(e)
    case Ok(ts) => Ok(ToMap(ts))
  }

  method ParseAttributeEqualityFilter(filter: string) returns (r: Parsed)
    ensures r == ParseFilter(filter)
  {
    var f := TrimSpace(filter);
    if f == "" { return Ok(map[]); }
    var parts := Split(f, AND);
    var out: Attributes := map[];
    ghost var written: seq<Equality> := [];
    for i := 0 to |parts|
      invariant ReadAll(parts[..i], ParseTerm) == Ok(written)
      invariant out == ToMap(written)
    {
      ReadAllStep(parts, ParseTerm, i);
      var term := ParseTerm(parts[i]);
      if term.Err? { return Err(term.error); }
      out := out[term.value.key := term.value.value];
      ToMapSnoc(written, term.value);
      written := written + [term.value];
    }
    assert parts[..|parts|] == parts;
    r := Ok(out);
  }

  // ---------- matching ----------

  /** Go's map lookup: an absent attribute reads as the empty string. */
  function Lookup(attributes: Attributes, key: string): string {
    if key in attributes then attributes[key] else ""
  }

  predicate Satisfies(attributes: Attributes, wanted: Attributes) {
    forall k :: k in wanted ==> Lookup(attributes, k) == wanted[k]
  }

  predicate MatchesFilter(filter: string, attributes: Attributes) {
    match ParseFilter(filter)
    case Err(_) => false
    case Ok(wanted) => Satisfies(attributes, wanted)
  }

  method MessageMatchesFilter(filter: string, attributes: Attributes) returns (r: bool)
    ensures r == MatchesFilter(filter, attributes)
  {
    var parsed := ParseAttributeEqualityFilter(filter);
    if parsed.Err? || parsed.value == map[] { return parsed.Ok?; }
    var todo := parsed.value.Keys;
    while todo != {}
      invariant todo <= parsed.value.Keys
      invariant forall k :: k in parsed.value && k !in todo ==> Lookup(attributes, k) == parsed.value[k]
    {
      var k :| k in todo;
      if Lookup(attributes, k) != parsed.value[k] { return false; }
      todo := todo - {k};
    }
    r := true;
  }

  /** Every equality written in the filter holds of the attributes. */
  predicate AllHold(ts: seq<Equality>, attributes: Attributes) {
    forall i :: 0 <= i < |ts| ==> Lookup(attributes, ts[i].key) == ts[i].value
  }

  /** No key is asked to have two different values. */
  ghost predicate Consistent(ts: seq<Equality>) {
    forall i, j :: 0 <= i < |ts| && 0 <= j < |ts| && ts[i].key == ts[j].key ==> ts[i].value == ts[j].value
  }

  lemma {:induction false} ToMapKeepsLast(ts: seq<Equality>, k: string)
    ensures k in ToMap(ts) <==> exists i :: 0 <= i < |ts| && ts[i].key == k
    ensures k in ToMap(ts) ==> exists i :: 0 <= i < |ts| && ts[i] == Equality(k, ToMap(ts)[k]) && forall j :: i < j < |ts| ==> ts[j].key != k
  {
    if ts != [] {
      var n := |ts| - 1;
      ToMapKeepsLast(ts[..n], k);
      if ts[n].key == k {
        assert ts[n] == Equality(k, ToMap(ts)[k]);
      } else if k in ToMap(ts[..n]) {
        var i :| 0 <= i < n && ts[..n][i] == Equality(k, ToMap(ts[..n])[k]) && forall j :: i < j < n ==> ts[..n][j].key != k;
        assert ts[i] == Equality(k, ToMap(ts)[k]);
        assert forall j :: i < j < |ts| ==> j == n || ts[j] == ts[..n][j];
      } else {
        assert forall i :: 0 <= i < n ==> ts[i] == ts[..n][i];
      }
    }
  }

  /** A message that meets every written equality passes; the converse holds for every message exactly when
      no key is written with two different values. */
  lemma MatchingIsConjunction(filter: string, ts: seq<Equality>)
    requires Written(filter) == Ok(ts)
    ensures forall attributes :: AllHold(ts, attributes) ==> MatchesFilter(filter, attributes)
    ensures Consistent(ts) <==> forall attributes :: MatchesFilter(filter, attributes) ==> AllHold(ts, attributes)
  {
    var wanted := ToMap(ts);
    forall attributes | AllHold(ts, attributes) ensures MatchesFilter(filter, attributes) {
      forall k | k in wanted ensures Lookup(attributes, k) == wanted[k] { ToMapKeepsLast(ts, k); }
    }
    if Consistent(ts) {
      forall attributes | MatchesFilter(filter, attributes) ensures AllHold(ts, attributes) {
        forall i | 0 <= i < |ts| ensures Lookup(attributes, ts[i].key) == ts[i].value { ToMapKeepsLast(ts, ts[i].key); }
      }
    } else {
      forall k | k in wanted ensures Lookup(wanted, k) == wanted[k] {}
      assert MatchesFilter(filter, wanted);
      var i, j :| 0 <= i < |ts| && 0 <= j < |ts| && ts[i].key == ts[j].key && ts[i].value != ts[j].value;
      assert !(Lookup(wanted, ts[i].key) == ts[i].value && Lookup(wanted, ts[j].key) == ts[j].value);
      assert !AllHold(ts, wanted);
    }
  }

  // ---------- printing ----------

  function PrintTerm(t: Equality): string {
    PREFIX + t.key + " = \"" + t.value + "\""
  }

  function PrintTerms(ts: seq<Equality>): (r: seq<string>)
    ensures |r| == |ts|
  {
    if ts == [] then [] else [PrintTerm(ts[0])] + PrintTerms(ts[1..])
  }

  function PrintFilter(ts: seq<Equality>): string {
    Join(PrintTerms(ts), AND)
  }

  /** Keys free of spaces and `=`, values free of the AND separator. */
  predicate Printable(t: Equality) {
    && t.key != "" && (forall c :: c in t.key ==> !IsSpace(c) && c != '=')
    && !Contains(t.value, AND)
  }

  lemma AtAnd(s: string, j: int)
    requires At(s, j, AND)
    ensures s[j] == ' ' && s[j + 1] == 'A'
  {
    assert s[j] == s[j..j + |AND|][0] && s[j + 1] == s[j..j + |AND|][1];
  }

  /** The separator cannot begin inside the key part of a term, nor run over its closing quote. */
  lemma NoSeparatorInTerm(front: string, value: string, j: int)
    requires |front| >= 4 && front[|front| - 4..] == " = \""
    requires forall i :: 0 <= i < |front| - 4 ==> !IsSpace(front[i])
    requires !Contains(value, AND)
    ensures !At(front + value + "\"", j, AND)
  {
    var s := front + value + "\"";
    var a := |front|;
    assert front[a - 3] == front[a - 4..][1] && front[a - 2] == front[a - 4..][2] && front[a - 1] == front[a - 4..][3];
    if 0 <= j < a {
      if j + 1 < a { assert s[j] == front[j] && s[j + 1] == front[j + 1]; }
      if At(s, j, AND) { AtAnd(s, j); }
    } else if a <= j && j + |AND| == |s| {
      assert s[j..j + |AND|][|AND| - 1] == s[|s| - 1] == '"';
    } else if a <= j && j + |AND| < |s| {
      IndexFirst(value, AND);
      assert s[j..j + |AND|] == value[j - a..j - a + |AND|];
      assert !At(value, j - a, AND);
    }
  }

  lemma PrintedTermClean(t: Equality)
    requires Printable(t)
    ensures Clean(PrintTerm(t), AND) && Trimmed(PrintTerm(t)) && PrintTerm(t) != ""
  {
    var s := PrintTerm(t);
    var front := PREFIX + t.key + " = \"";
    assert s == front + t.value + "\"";
    forall i | 0 <= i < |front| - 4 ensures !IsSpace(front[i]) {
      if i < |PREFIX| {
        assert front[i] == PREFIX[i] && PREFIX[i] in PREFIX;
      } else {
        assert front[i] == t.key[i - |PREFIX|];
      }
    }
    forall j ensures !At(s, j, AND) { NoSeparatorInTerm(front, t.value, j); }
    IndexFirst(s, AND);
    assert s[|s| - 1] == '"';
    CleanEnd(s, AND);
  }

  lemma SidesRead(t: Equality)
    requires Printable(t)
    ensures ReadSides(t.key + " ", " \"" + t.value + "\"") == Ok(t)
  {
    var q := "\"" + t.value + "\"";
    assert t.key + " " == "" + t.key + " " && " \"" + t.value + "\"" == " " + q + "";
    TrimAround("", t.key, " ");
    TrimAround(" ", q, "");
    assert q[1..|q| - 1] == t.value;
  }

  lemma EqualityParses(t: Equality)
    requires Printable(t)
    ensures ParseEquality(t.key + " = \"" + t.value + "\"") == Ok(t)
  {
    var left, right := t.key + " ", " \"" + t.value + "\"";
    assert t.key + " = \"" + t.value + "\"" == left + "=" + right;
    assert '=' !in left;
    CutAt(left, '=', right);
    SidesRead(t);
  }

  lemma PrintedTermParses(t: Equality)
    requires Printable(t)
    ensures ParseTerm(PrintTerm(t)) == Ok(t)
  {
    var s := PrintTerm(t);
    PrintedTermClean(t);
    TrimSpaceId(s);
    var rest := t.key + " = \"" + t.value + "\"";
    assert s == PREFIX + rest;
    assert s[|PREFIX|..] == rest;
    assert rest[0] == t.key[0] && rest[|rest| - 1] == '"';
    TrimSpaceId(rest);
    EqualityParses(t);
  }

  lemma {:induction false} JoinEnds(parts: seq<string>, sep: string)
    requires |parts| >= 1 && forall i :: 0 <= i < |parts| ==> parts[i] != "" && Trimmed(parts[i])
    ensures Join(parts, sep) != "" && Trimmed(Join(parts, sep))
  {
    if |parts| > 1 {
      JoinEnds(parts[1..], sep);
      var s := Join(parts, sep);
      var tail := Join(parts[1..], sep);
      assert s == parts[0] + sep + tail;
      assert s[0] == parts[0][0] && s[|s| - 1] == tail[|tail| - 1];
    }
  }

  /** Printing a list of equalities and reading the text back gives the same list, so with distinct keys the
      same map. */
  lemma PrintThenParse(ts: seq<Equality>)
    requires forall i :: 0 <= i < |ts| ==> Printable(ts[i])
    ensures Written(PrintFilter(ts)) == Ok(ts)
    ensures ParseFilter(PrintFilter(ts)) == Ok(ToMap(ts))
  {
    if ts != [] {
      var parts := PrintTerms(ts);
      forall i | 0 <= i < |ts|
        ensures ParseTerm(parts[i]) == Ok(ts[i]) && Clean(parts[i], AND) && parts[i] != "" && Trimmed(parts[i])
      {
        PrintTermsAt(ts, i);
        PrintedTermParses(ts[i]);
        PrintedTermClean(ts[i]);
      }
      JoinEnds(parts, AND);
      TrimSpaceId(PrintFilter(ts));
      SplitJoin(parts, AND);
      ReadAllOk(parts, ParseTerm, ts);
    }
  }

  lemma {:induction false} PrintTermsAt(ts: seq<Equality>, i: nat)
    requires i < |ts|
    ensures PrintTerms(ts)[i] == PrintTerm(ts[i])
  {
    if i > 0 { PrintTermsAt(ts[1..], i - 1); }
  }
}
