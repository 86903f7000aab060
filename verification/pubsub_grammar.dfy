/** Which texts are subscription filters: the spelling of a term, and of a whole filter. */
module PubSubGrammar {
  import opened Basics
  import opened Text
  import opened PubSubFilter

  // ---------- terms ----------

  function Quoted(value: string): string {
    "\"" + value + "\""
  }

  /** The white space a term is written with. */
  datatype Spaces = Spaces(before: string, afterDot: string, afterKey: string, afterEquals: string, after: string)

  predicate AllBlank(w: Spaces) {
    AllSpaces(w.before) && AllSpaces(w.afterDot) && AllSpaces(w.afterKey) && AllSpaces(w.afterEquals) && AllSpaces(w.after)
  }

  function Spelled(w: Spaces, t: Equality): string {
    w.before + ("attributes." + (w.afterDot + (t.key + w.afterKey + "=" + (w.afterEquals + Quoted(t.value))))) + w.after
  }

  predicate KeyOk(key: string) {
    key != "" && Trimmed(key) && '=' !in key
  }

  /** `raw` is the equality, with white space anywhere around its parts. */
  ghost predicate Spells(raw: string, t: Equality) {
    KeyOk(t.key) && exists w :: AllBlank(w) && raw == Spelled(w, t)
  }

  lemma SidesSpelled(left: string, right: string, t: Equality, afterKey: string, afterEquals: string)
    requires KeyOk(t.key) && AllSpaces(afterKey) && AllSpaces(afterEquals)
    requires left == t.key + afterKey && right == afterEquals + Quoted(t.value)
    ensures ReadSides(left, right) == Ok(t)
  {
    var q := Quoted(t.value);
    assert left == "" + t.key + afterKey && right == afterEquals + q + "";
    TrimAround("", t.key, afterKey);
    TrimmedAt(q, "\"", "\"", t.value);
    TrimAround(afterEquals, q, "");
    assert q[1..|q| - 1] == t.value;
  }

  lemma RestTrimmed(key: string, c: string, d: string, value: string)
    requires KeyOk(key)
    ensures var rest := key + c + "=" + (d + Quoted(value)); Trimmed(rest) && rest != ""
  {
    var rest := key + c + "=" + (d + Quoted(value));
    TrimmedAt(rest, key, "\"", c + "=" + d + "\"" + value);
  }

  lemma EqualsFree(key: string, c: string)
    requires KeyOk(key) && AllSpaces(c)
    ensures '=' !in key + c
  {
    assert !IsSpace('=');
  }

  lemma RestSpelled(t: Equality, left: string, right: string, c: string, d: string)
    requires KeyOk(t.key) && AllSpaces(c) && AllSpaces(d) && left == t.key + c && right == d + Quoted(t.value)
    ensures ParseEquality(left + "=" + right) == Ok(t)
  {
    EqualsFree(t.key, c);
    CutAt(left, '=', right);
    SidesSpelled(left, right, t, c, d);
  }

  lemma SpelledReads(w: Spaces, t: Equality)
    requires KeyOk(t.key) && AllBlank(w)
    ensures ParseTerm(Spelled(w, t)) == Ok(t)
  {
    var rest := t.key + w.afterKey + "=" + (w.afterEquals + Quoted(t.value));
    RestSpelled(t, t.key + w.afterKey, w.afterEquals + Quoted(t.value), w.afterKey, w.afterEquals);
    RestTrimmed(t.key, w.afterKey, w.afterEquals, t.value);
    var part := "attributes." + (w.afterDot + rest);
    assert part == "attributes." + w.afterDot + rest;
    assert !IsSpace(rest[|rest| - 1]);
    TrimmedAt(part, "attributes.", rest, w.afterDot);
    TrimAround(w.before, part, w.after);
    assert part[|PREFIX|..] == w.afterDot + rest + "";
    TrimAround(w.afterDot, rest, "");
  }

  lemma KeyBefore(rest: string, eq: int)
    requires eq == Index(rest, "=") && eq >= 0
    ensures '=' !in rest[..eq] && rest == rest[..eq] + "=" + rest[eq + 1..]
  {
    IndexFirst(rest, "=");
    AtChar(rest, eq, '=');
    forall j | 0 <= j < eq ensures rest[j] != '=' { AtChar(rest, j, '='); }
  }

  lemma QuotedIs(q: string)
    requires |q| >= 2 && q[0] == '"' && q[|q| - 1] == '"'
    ensures q == Quoted(q[1..|q| - 1])
  {
  }

  lemma SidesAre(left: string, right: string, t: Equality) returns (b: string, c: string, d: string, e: string)
    requires ReadSides(left, right) == Ok(t) && '=' !in left
    ensures AllSpaces(b) && AllSpaces(c) && AllSpaces(d) && AllSpaces(e) && KeyOk(t.key)
    ensures left == b + t.key + c && right == d + Quoted(t.value) + e
  {
    b, c := AroundTrimmed(left);
    d, e := AroundTrimmed(right);
    TrimSpaceTrims(left);
    QuotedIs(TrimSpace(right));
  }

  lemma Regroup(raw: string, w: Spaces, t: Equality, b1: string, b2: string, e1: string, e2: string, e3: string, left: string, right: string)
    requires left == b2 + t.key + w.afterKey && right == w.afterEquals + Quoted(t.value) + e1
    requires raw == w.before + ("attributes." + (b1 + (left + "=" + right) + e2)) + e3
    requires w.afterDot == b1 + b2 && w.after == e1 + e2 + e3
    ensures raw == Spelled(w, t)
  {
    var core := t.key + w.afterKey + "=" + (w.afterEquals + Quoted(t.value));
    assert left + "=" + right == b2 + core + e1;
    assert b1 + (b2 + core + e1) + e2 == (w.afterDot + core) + (e1 + e2);
    assert "attributes." + ((w.afterDot + core) + (e1 + e2)) == ("attributes." + (w.afterDot + core)) + (e1 + e2);
  }

  lemma RestIsSpelled(rest: string, t: Equality) returns (b: string, c: string, d: string, e: string, left: string, right: string)
    requires ParseEquality(rest) == Ok(t)
    ensures AllSpaces(b) && AllSpaces(c) && AllSpaces(d) && AllSpaces(e) && KeyOk(t.key)
    ensures rest == left + "=" + right && left == b + t.key + c && right == d + Quoted(t.value) + e
  {
    var eq := Index(rest, "=");
    KeyBefore(rest, eq);
    left, right := rest[..eq], rest[eq + 1..];
    b, c, d, e := SidesAre(left, right, t);
  }

  lemma BlankConcat(a: string, b: string)
    requires AllSpaces(a) && AllSpaces(b)
    ensures AllSpaces(a + b)
  {
  }

  lemma PartIs(raw: string) returns (a: string, b: string, rest: string, e: string, f: string)
    requires PREFIX <= TrimSpace(raw)
    ensures AllSpaces(a) && AllSpaces(b) && AllSpaces(e) && AllSpaces(f) && rest == TrimSpace(TrimSpace(raw)[|PREFIX|..])
    ensures raw == a + ("attributes." + (b + rest + e)) + f
  {
    a, f := AroundTrimmed(raw);
    var tail := TrimSpace(raw)[|PREFIX|..];
    b, e := AroundTrimmed(tail);
    rest := TrimSpace(tail);
    assert TrimSpace(raw) == "attributes." + tail;
  }

  lemma SpacesOf(a: string, b1: string, b2: string, c: string, d: string, e1: string, e2: string, e3: string) returns (w: Spaces)
    requires AllSpaces(a) && AllSpaces(b1) && AllSpaces(b2) && AllSpaces(c) && AllSpaces(d) && AllSpaces(e1) && AllSpaces(e2) && AllSpaces(e3)
    ensures AllBlank(w) && w == Spaces(a, b1 + b2, c, d, e1 + e2 + e3)
  {
    BlankConcat(b1, b2);
    BlankConcat(e1, e2);
    BlankConcat(e1 + e2, e3);
    w := Spaces(a, b1 + b2, c, d, e1 + e2 + e3);
  }

  lemma SpelledWith(raw: string, w: Spaces, t: Equality)
    requires KeyOk(t.key) && AllBlank(w) && raw == Spelled(w, t)
    ensures Spells(raw, t)
  {
  }

  lemma ReadIsSpelled(raw: string, t: Equality)
    requires ParseTerm(raw) == Ok(t)
    ensures Spells(raw, t)
  {
    var a, b1, rest, e2, e3 := PartIs(raw);
    var b2, c, d, e1, left, right := RestIsSpelled(rest, t);
    var w := SpacesOf(a, b1, b2, c, d, e1, e2, e3);
    Regroup(raw, w, t, b1, b2, e1, e2, e3, left, right);
    SpelledWith(raw, w, t);
  }

  /** A term reads as an equality exactly when it spells it: the word `attributes` and a dot, a key, an equals sign and
      a value in double quotes, with white space between these parts only. */
  lemma TermReads(raw: string, t: Equality)
    ensures ParseTerm(raw) == Ok(t) <==> Spells(raw, t)
  {
    if ParseTerm(raw) == Ok(t) { ReadIsSpelled(raw, t); }
    if Spells(raw, t) {
      var w :| AllBlank(w) && raw == Spelled(w, t);
      SpelledReads(w, t);
    }
  }

  // ---------- filters ----------

  ghost predicate SpellsAll(parts: seq<string>, ts: seq<Equality>) {
    |parts| == |ts| && forall i :: 0 <= i < |ts| ==> Spells(parts[i], ts[i])
  }

  lemma {:induction false} AllRead(parts: seq<string>, ts: seq<Equality>)
    ensures ReadAll(parts, ParseTerm) == Ok(ts) <==> SpellsAll(parts, ts)
  {
    if SpellsAll(parts, ts) {
      forall i | 0 <= i < |parts| ensures ParseTerm(parts[i]) == Ok(ts[i]) { TermReads(parts[i], ts[i]); }
      ReadAllOk(parts, ParseTerm, ts);
    }
    if ReadAll(parts, ParseTerm) == Ok(ts) && parts != [] {
      AllRead(parts[1..], ts[1..]);
      TermReads(parts[0], ts[0]);
      forall i | 0 <= i < |ts| ensures Spells(parts[i], ts[i]) {
        if i > 0 { assert Spells(parts[1..][i - 1], ts[1..][i - 1]); }
      }
    }
  }

  /** A filter writes down exactly the equalities that the texts between its separators spell, and a blank one none;
      every other text is refused. */
  lemma FilterReads(filter: string, ts: seq<Equality>)
    ensures Written(filter) == Ok(ts) <==> if AllSpaces(filter) then ts == [] else SpellsAll(Split(TrimSpace(filter), " AND "), ts)
    ensures ParseFilter(filter).Ok? <==> Written(filter).Ok?
  {
    TrimSpaceTrims(filter);
    AllRead(Split(TrimSpace(filter), " AND "), ts);
  }
}
