/** Policy specs as JSON: normalizing them when they are stored, and reading the value they enforce. */
module OrgSpec {
  import opened Basics

  datatype Json =
    | Null
    | Bool(b: bool)
    | Number(text: string)
    | String(text: string)
    | Array(items: seq<Json>)
    | Object(fields: map<string, Json>)

  datatype Error = NotAnObject | BooleanPolicyNotBool | RulesNotArray | RuleNotObject | EnforcedNotBool | EnforceNotBool

  // ---------- what the check reads ----------

  /** Decoding into a `*bool`: absent and null leave it nil. */
  function ReadBool(fields: map<string, Json>, key: string): Result<Option<bool>, Error> {
    if key !in fields || fields[key].Null? then Ok(None)
    else if fields[key].Bool? then Ok(Some(fields[key].b))
    else Err(EnforceNotBool)
  }

  function ReadRule(rule: Json): Result<Option<bool>, Error> {
    match rule
    case Null => Ok(None)
    case Object(fields) => ReadBool(fields, "enforce")
    case _ => Err(RuleNotObject)
  }

  function FirstSet(rules: seq<Option<bool>>): bool {
    if rules == [] then false else if rules[0].Some? then rules[0].value else FirstSet(rules[1..])
  }

  /** booleanSpecEnforced: any field of the wrong type makes the whole decoding fail, and then nothing is enforced. */
  function Enforced(spec: Json): bool {
    match spec
    case Object(fields) =>
      var reset := ReadBool(fields, "reset");
      if reset.Err? || reset.value == Some(true) then false
      else if "rules" !in fields || fields["rules"].Null? then false
      else if !fields["rules"].Array? then false
      else
        (match ReadAll(fields["rules"].items, r => ReadRule(r))
         case Err(_) => false
         case Ok(rules) => FirstSet(rules))
    case _ => false
  }

  method BooleanSpecEnforced(spec: Json) returns (r: bool)
    ensures r == Enforced(spec)
  {
    if !spec.Object? { return false; }
    var reset := ReadBool(spec.fields, "reset");
    if reset.Err? || reset.value == Some(true) { return false; }
    if "rules" !in spec.fields || !spec.fields["rules"].Array? { return false; }
    var rules := ReadAll(spec.fields["rules"].items, r => ReadRule(r));
    if rules.Err? { return false; }
    for k := 0 to |rules.value|
      invariant FirstSet(rules.value) == FirstSet(rules.value[k..])
    {
      assert rules.value[k..][0] == rules.value[k] && rules.value[k..][1..] == rules.value[k + 1..];
      if rules.value[k].Some? { return rules.value[k].value; }
    }
    r := false;
  }

  // ---------- normalizing ----------

  function CoerceBool(fields: map<string, Json>, key: string, e: Error): Result<bool, Error> {
    if key in fields && fields[key].Bool? then Ok(fields[key].b) else Err(e)
  }

  /** The v1 name `enforced` becomes `enforce`, unless `enforce` is there too. */
  function Renamed(fields: map<string, Json>): Result<map<string, Json>, Error> {
    if "enforced" !in fields then Ok(fields)
    else if "enforce" in fields then Ok(fields - {"enforced"})
    else
      match CoerceBool(fields, "enforced", EnforcedNotBool)
      case Err(e) => Err(e)
      case Ok(b) => Ok(fields["enforce" := Bool(b)] - {"enforced"})
  }

  function NormalizeRule(rule: Json): Result<Json, Error> {
    if !rule.Object? then Err(RuleNotObject)
    else
      match Renamed(rule.fields)
      case Err(e) => Err(e)
      case Ok(fields) =>
        if "enforce" in fields && !fields["enforce"].Bool? then Err(EnforceNotBool) else Ok(Object(fields))
  }

  function DefaultRules(enforce: bool): Json {
    Array([Object(map["enforce" := Bool(enforce)])])
  }

  /** A v1 `booleanPolicy` object replaces the rules. */
  function Modernized(fields: map<string, Json>): Result<map<string, Json>, Error> {
    if "booleanPolicy" in fields && fields["booleanPolicy"].Object? then
      match CoerceBool(fields["booleanPolicy"].fields, "enforced", BooleanPolicyNotBool)
      case Err(e) => Err(e)
      case Ok(b) => Ok(fields["rules" := DefaultRules(b)] - {"booleanPolicy"})
    else Ok(fields)
  }

  function NormalizeRules(fields: map<string, Json>): Result<map<string, Json>, Error> {
    if "rules" !in fields then Ok(fields["rules" := DefaultRules(false)])
    else if !fields["rules"].Array? then Err(RulesNotArray)
    else
      match ReadAll(fields["rules"].items, r => NormalizeRule(r))
      case Err(e) => Err(e)
      case Ok(rules) => Ok(fields["rules" := Array(rules)])
  }

  /** normalizeOrgPolicySpecJSON, on the decoded value. */
  function Normalize(spec: Json): Result<Json, Error> {
    if !spec.Object? && !spec.Null? then Err(NotAnObject)
    else
      match Modernized(if spec.Null? then map[] else spec.fields)
      case Err(e) => Err(e)
      case Ok(fields) =>
        match NormalizeRules(fields)
        case Err(e) => Err(e)
        case Ok(out) => Ok(Object(out))
  }

  /** The loop over the rules, rewriting them in place. */
  method NormalizeRuleLoop(items: seq<Json>) returns (r: Result<seq<Json>, Error>)
    ensures r == ReadAll(items, x => NormalizeRule(x))
  {
    var rules := items;
    ghost var read := x => NormalizeRule(x);
    for i := 0 to |items|
      invariant |rules| == |items| && rules[i..] == items[i..]
      invariant ReadAll(items[..i], read) == Ok(rules[..i])
    {
      ReadAllStep(items, read, i);
      assert rules[i] == rules[i..][0] == items[i];
      assert read(items[i]) == NormalizeRule(items[i]);
      if !rules[i].Object? { return Err(RuleNotObject); }
      var rule := rules[i].fields;
      if "enforced" in rule {
        if "enforce" !in rule {
          if !rule["enforced"].Bool? { return Err(EnforcedNotBool); }
          rule := rule["enforce" := Bool(rule["enforced"].b)];
        }
        rule := rule - {"enforced"};
      }
      if "enforce" in rule && !rule["enforce"].Bool? { return Err(EnforceNotBool); }
      assert read(items[i]) == Ok(Object(rule));
      ghost var before := rules;
      rules := rules[i := Object(rule)];
      assert rules[..i + 1] == before[..i] + [Object(rule)];
      assert rules[i + 1..] == before[i..][1..] && items[i + 1..] == items[i..][1..];
    }
    assert items[..|items|] == items && rules[..|items|] == rules;
    r := Ok(rules);
  }

  // ---------- laws ----------

  predicate NormalRule(rule: Json) {
    rule.Object? && "enforced" !in rule.fields && ("enforce" in rule.fields ==> rule.fields["enforce"].Bool?)
  }

  lemma RuleNormal(rule: Json)
    ensures NormalizeRule(rule).Ok? ==> NormalRule(NormalizeRule(rule).value)
    ensures NormalRule(rule) ==> NormalizeRule(rule) == Ok(rule)
  {
  }

  lemma {:induction false} RulesNormal(rules: seq<Json>)
    ensures var out := ReadAll(rules, r => NormalizeRule(r));
            out.Ok? ==> forall i :: 0 <= i < |out.value| ==> NormalRule(out.value[i])
  {
    if rules != [] {
      RuleNormal(rules[0]);
      RulesNormal(rules[1..]);
      var first, rest := NormalizeRule(rules[0]), ReadAll(rules[1..], r => NormalizeRule(r));
      if first.Ok? && rest.Ok? {
        assert ReadAll(rules, r => NormalizeRule(r)) == Ok([first.value] + rest.value);
        forall i | 0 <= i < |rules| ensures NormalRule(([first.value] + rest.value)[i]) {
          if i > 0 { assert ([first.value] + rest.value)[i] == rest.value[i - 1]; }
        }
      }
    }
  }

  lemma {:induction false} NormalRulesStay(rules: seq<Json>)
    requires forall i :: 0 <= i < |rules| ==> NormalRule(rules[i])
    ensures ReadAll(rules, r => NormalizeRule(r)) == Ok(rules)
  {
    forall i | 0 <= i < |rules| ensures NormalizeRule(rules[i]) == Ok(rules[i]) { RuleNormal(rules[i]); }
    ReadAllOk(rules, r => NormalizeRule(r), rules);
  }

  predicate NormalFields(fields: map<string, Json>) {
    && !("booleanPolicy" in fields && fields["booleanPolicy"].Object?)
    && "rules" in fields && fields["rules"].Array?
    && forall i :: 0 <= i < |fields["rules"].items| ==> NormalRule(fields["rules"].items[i])
  }

  lemma NormalizedFields(fields: map<string, Json>)
    ensures !("booleanPolicy" in fields && fields["booleanPolicy"].Object?) && NormalizeRules(fields).Ok? ==> NormalFields(NormalizeRules(fields).value)
  {
    if NormalizeRules(fields).Ok? {
      var out := NormalizeRules(fields).value;
      assert "booleanPolicy" in out <==> "booleanPolicy" in fields;
      if "rules" in fields {
        RulesNormal(fields["rules"].items);
      } else {
        assert out["rules"].items == [Object(map["enforce" := Bool(false)])];
      }
    }
  }

  lemma NormalFieldsStay(fields: map<string, Json>)
    requires NormalFields(fields)
    ensures Modernized(fields) == Ok(fields) && NormalizeRules(fields) == Ok(fields)
  {
    NormalRulesStay(fields["rules"].items);
    assert fields["rules" := Array(fields["rules"].items)] == fields;
  }

  lemma ModernizedHasNoPolicy(fields: map<string, Json>)
    ensures Modernized(fields).Ok? ==> var m := Modernized(fields).value; !("booleanPolicy" in m && m["booleanPolicy"].Object?)
  {
  }

  /** Normalizing a normalized spec changes nothing. */
  lemma NormalizeIdempotent(spec: Json)
    requires Normalize(spec).Ok?
    ensures Normalize(Normalize(spec).value) == Normalize(spec)
  {
    var fields := if spec.Null? then map[] else spec.fields;
    ModernizedHasNoPolicy(fields);
    NormalizedFields(Modernized(fields).value);
    NormalFieldsStay(Normalize(spec).value.fields);
  }

  /** The setting of a rule in either spelling; `enforce` wins. */
  function RuleSetting(rule: Json): Option<bool> {
    if !rule.Object? then None
    else if "enforce" in rule.fields then (if rule.fields["enforce"].Bool? then Some(rule.fields["enforce"].b) else None)
    else if "enforced" in rule.fields && rule.fields["enforced"].Bool? then Some(rule.fields["enforced"].b)
    else None
  }

  function FirstSetting(rules: seq<Json>): bool {
    if rules == [] then false
    else if RuleSetting(rules[0]).Some? then RuleSetting(rules[0]).value
    else FirstSetting(rules[1..])
  }

  /** Neither set nor of the wrong type. */
  predicate NoReset(fields: map<string, Json>) {
    ReadBool(fields, "reset").Ok? && ReadBool(fields, "reset").value != Some(true)
  }

  /** The value a spec stands for, in either version: the v1 policy if there is one, else the first rule that
      says anything; nothing when the spec resets the policy. */
  function Meaning(spec: Json): bool {
    match spec
    case Object(fields) =>
      if !NoReset(fields) then false
      else if "booleanPolicy" in fields && fields["booleanPolicy"].Object? then
        CoerceBool(fields["booleanPolicy"].fields, "enforced", BooleanPolicyNotBool) == Ok(true)
      else if "rules" in fields && fields["rules"].Array? then FirstSetting(fields["rules"].items)
      else false
    case _ => false
  }

  lemma RuleReads(rule: Json)
    requires NormalizeRule(rule).Ok?
    ensures ReadRule(NormalizeRule(rule).value) == Ok(RuleSetting(rule))
  {
  }

  lemma {:induction false} RulesRead(rules: seq<Json>)
    requires ReadAll(rules, r => NormalizeRule(r)).Ok?
    ensures var out := ReadAll(ReadAll(rules, r => NormalizeRule(r)).value, r => ReadRule(r));
            out.Ok? && FirstSet(out.value) == FirstSetting(rules)
  {
    if rules != [] {
      var n := NormalizeRule(rules[0]).value;
      RuleReads(rules[0]);
      RulesRead(rules[1..]);
      var rest := ReadAll(rules[1..], r => NormalizeRule(r)).value;
      assert ([n] + rest)[1..] == rest;
      var out := ReadAll(rest, r => ReadRule(r)).value;
      assert ([RuleSetting(rules[0])] + out)[1..] == out;
    }
  }

  lemma DefaultMeans(b: bool)
    ensures NormalizeRule(Object(map["enforce" := Bool(b)])) == Ok(Object(map["enforce" := Bool(b)]))
    ensures FirstSetting([Object(map["enforce" := Bool(b)])]) == b
  {
    assert [Object(map["enforce" := Bool(b)])][1..] == [];
  }

  lemma NormalizedRulesMean(fields: map<string, Json>)
    requires NormalizeRules(fields).Ok?
    ensures var out := NormalizeRules(fields).value;
            Enforced(Object(out)) == (NoReset(fields) && "rules" in fields && fields["rules"].Array? && FirstSetting(fields["rules"].items))
  {
    var out := NormalizeRules(fields).value;
    assert ReadBool(out, "reset") == ReadBool(fields, "reset");
    if "rules" in fields {
      RulesRead(fields["rules"].items);
    } else {
      var rule := Object(map["enforce" := Bool(false)]);
      DefaultMeans(false);
      RulesRead([rule]);
      ReadAllOk([rule], r => NormalizeRule(r), [rule]);
    }
  }

  /** The stored spec enforces what the given one stands for. */
  lemma NormalizeMeans(spec: Json)
    requires Normalize(spec).Ok?
    ensures Enforced(Normalize(spec).value) == Meaning(spec)
  {
    var fields := if spec.Null? then map[] else spec.fields;
    var m := Modernized(fields).value;
    NormalizedRulesMean(m);
    assert ReadBool(m, "reset") == ReadBool(fields, "reset");
    if "booleanPolicy" in fields && fields["booleanPolicy"].Object? {
      DefaultMeans(fields["booleanPolicy"].fields["enforced"].b);
    }
  }

  // ---------- which specs are accepted ----------

  /** Absent or of the right type. */
  predicate MayBeBool(fields: map<string, Json>, key: string) {
    key in fields ==> fields[key].Bool?
  }

  predicate RuleAccepted(rule: Json) {
    rule.Object? && if "enforce" in rule.fields then rule.fields["enforce"].Bool? else MayBeBool(rule.fields, "enforced")
  }

  lemma {:induction false} AllAccepted(rules: seq<Json>)
    ensures ReadAll(rules, r => NormalizeRule(r)).Ok? <==> forall r :: r in rules ==> RuleAccepted(r)
  {
    if rules != [] {
      AllAccepted(rules[1..]);
      assert rules == [rules[0]] + rules[1..];
      assert NormalizeRule(rules[0]).Ok? <==> RuleAccepted(rules[0]);
    }
  }

  /** A null spec counts as an empty one. Of an object, the v1 policy must say `enforced`, or else the rules must be a
      list of objects whose settings are booleans. No other field matters, and every other field is kept. */
  lemma NormalizeAccepts(spec: Json, key: string)
    ensures Normalize(spec).Ok? <==>
              || spec.Null?
              || (spec.Object? &&
                  if "booleanPolicy" in spec.fields && spec.fields["booleanPolicy"].Object? then
                    "enforced" in spec.fields["booleanPolicy"].fields && spec.fields["booleanPolicy"].fields["enforced"].Bool?
                  else "rules" in spec.fields ==> spec.fields["rules"].Array? && forall r :: r in spec.fields["rules"].items ==> RuleAccepted(r))
    ensures Normalize(spec).Ok? && key != "rules" && key != "booleanPolicy" ==>
              var out := Normalize(spec).value;
              && out.Object? && (key in out.fields <==> spec.Object? && key in spec.fields)
              && (key in out.fields ==> out.fields[key] == spec.fields[key])
  {
    var fields := if spec.Object? then spec.fields else map[];
    if "booleanPolicy" in fields && fields["booleanPolicy"].Object? {
      if Modernized(fields).Ok? {
        var rule := DefaultRules(fields["booleanPolicy"].fields["enforced"].b).items;
        AllAccepted(rule);
      }
    } else if "rules" in fields && fields["rules"].Array? {
      AllAccepted(fields["rules"].items);
    }
  }

  // ---------- which specs enforce ----------

  /** Decoding into a boolean field gives `setting`: none for an absent or null value. */
  predicate Says(fields: map<string, Json>, key: string, setting: Option<bool>) {
    if key in fields && fields[key].Bool? then setting == Some(fields[key].b)
    else setting == None && (key in fields ==> fields[key].Null?)
  }

  predicate Decodes(rule: Json) {
    rule.Null? || (rule.Object? && ("enforce" in rule.fields ==> rule.fields["enforce"].Bool? || rule.fields["enforce"].Null?))
  }

  predicate HasSetting(rule: Json) {
    rule.Object? && "enforce" in rule.fields && rule.fields["enforce"].Bool?
  }

  /** The rule at `i` is the first that says anything, and it says yes. */
  predicate FirstYes(rules: seq<Json>, i: nat) {
    i < |rules| && HasSetting(rules[i]) && rules[i].fields["enforce"].b && forall j :: 0 <= j < i ==> !HasSetting(rules[j])
  }

  lemma {:induction false} RulesDecode(rules: seq<Json>)
    ensures ReadAll(rules, r => ReadRule(r)).Ok? <==> forall r :: r in rules ==> Decodes(r)
    ensures var read := ReadAll(rules, r => ReadRule(r));
            read.Ok? ==> (FirstSet(read.value) <==> exists i: nat :: FirstYes(rules, i))
  {
    if rules != [] {
      var rest := rules[1..];
      RulesDecode(rest);
      assert rules == [rules[0]] + rest;
      assert ReadRule(rules[0]).Ok? <==> Decodes(rules[0]);
      if ReadAll(rules, r => ReadRule(r)).Ok? {
        FirstStep(rules);
        var first, others := ReadRule(rules[0]).value, ReadAll(rest, r => ReadRule(r)).value;
        assert ([first] + others)[1..] == others;
        assert first.Some? <==> HasSetting(rules[0]);
      }
    }
  }

  lemma FirstStep(rules: seq<Json>)
    requires rules != []
    ensures (exists i: nat :: FirstYes(rules, i)) <==>
              if HasSetting(rules[0]) then rules[0].fields["enforce"].b else exists i: nat :: FirstYes(rules[1..], i)
  {
    if HasSetting(rules[0]) {
      if rules[0].fields["enforce"].b { assert FirstYes(rules, 0); }
    } else {
      if i: nat :| FirstYes(rules, i) { assert FirstYes(rules[1..], i - 1); }
      if i: nat :| FirstYes(rules[1..], i) {
        forall j | 0 <= j < i + 1 ensures !HasSetting(rules[j]) {
          if j > 0 { assert rules[1..][j - 1] == rules[j]; }
        }
        assert FirstYes(rules, i + 1);
      }
    }
  }

  /** A spec is enforced exactly when all of it decodes, it does not reset, and the first rule that says anything says
      yes. */
  lemma EnforcedMeans(spec: Json)
    ensures Enforced(spec) <==>
              && spec.Object? && (Says(spec.fields, "reset", None) || Says(spec.fields, "reset", Some(false)))
              && "rules" in spec.fields && spec.fields["rules"].Array? && (forall r :: r in spec.fields["rules"].items ==> Decodes(r))
              && exists i: nat :: FirstYes(spec.fields["rules"].items, i)
  {
    if spec.Object? && "rules" in spec.fields && spec.fields["rules"].Array? { RulesDecode(spec.fields["rules"].items); }
  }
}
