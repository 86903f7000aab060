/** Policies and folders as tables that change, and what each change can do to the policy in force. */
module OrgStore {
  import opened Basics
  import opened Text
  import opened OrgPolicy
  import opened OrgResolution
  import S = OrgSpec

  // ---------- any graph ----------

  lemma {:induction false} DistinctFits(s: seq<string>, of: set<string>)
    requires Distinct(s) && forall x :: x in s ==> x in of
    ensures |s| <= |of|
    decreases |s|
  {
    if s != [] {
      assert s == [s[0]] + s[1..] && s[0] in s;
      assert forall i :: 0 <= i < |s[1..]| ==> s[1..][i] == s[i + 1] != s[0];
      DistinctFits(s[1..], of - {s[0]});
    }
  }

  lemma {:induction false} ImageFits(folders: map<string, Folder>, ids: set<string>)
    requires ids <= folders.Keys
    ensures |set id | id in ids :: folders[id].parent| <= |ids|
    decreases ids
  {
    if ids != {} {
      var id :| id in ids;
      ImageFits(folders, ids - {id});
      assert (set i | i in ids :: folders[i].parent) == (set i | i in ids - {id} :: folders[i].parent) + {folders[id].parent};
    }
  }

  lemma ParentKnown(db: Db, node: string)
    ensures var up := Parent(db, node);
            up.Some? ==> up.value in ParentTexts(db) + {DEFAULT_ORGANIZATION}
  {
  }

  function ParentTexts(db: Db): set<string> {
    set id | id in db.folders.Keys :: db.folders[id].parent
  }

  lemma AboveKnown(db: Db, resource: string, n: nat, i: nat)
    requires 1 <= i < |Chain(ParentOf(db), resource, {}, n)|
    ensures Chain(ParentOf(db), resource, {}, n)[i] in ParentTexts(db) + {DEFAULT_ORGANIZATION}
  {
    ChainLinks(ParentOf(db), resource, {}, n, i);
    ParentKnown(db, Chain(ParentOf(db), resource, {}, n)[i - 1]);
  }

  /** However the folders are arranged, cycles included, a parent chain has at most two nodes more than
      there are folders. */
  lemma ChainBounded(db: Db, resource: string, n: nat)
    ensures |Chain(ParentOf(db), resource, {}, n)| <= |db.folders| + 2
  {
    var chain := Chain(ParentOf(db), resource, {}, n);
    ChainDistinct(ParentOf(db), resource, {}, n);
    if chain != [] {
      ImageFits(db.folders, db.folders.Keys);
      forall i | 1 <= i < |chain| ensures chain[i] in ParentTexts(db) + {DEFAULT_ORGANIZATION} { AboveKnown(db, resource, n, i); }
      TailFits(chain, ParentTexts(db), DEFAULT_ORGANIZATION);
    }
  }

  lemma TailFits(chain: seq<string>, of: set<string>, extra: string)
    requires chain != [] && Distinct(chain) && forall i :: 1 <= i < |chain| ==> chain[i] in of + {extra}
    ensures |chain| <= |of| + 2
  {
    assert forall i :: 0 <= i < |chain[1..]| ==> chain[1..][i] == chain[i + 1];
    DistinctFits(chain[1..], of + {extra});
    assert of + {extra} == of || |of + {extra}| == |of| + 1;
  }

  /** With at most 30 folders the bound of 32 nodes never matters. */
  lemma BoundHarmless(db: Db, resource: string, constraint: string, n: nat)
    requires |db.folders| <= 30 && n >= MAX_NODES
    ensures Decide(Chain(ParentOf(db), resource, {}, n), SettingOf(db, constraint)) ==
            Decide(Chain(ParentOf(db), resource, {}, MAX_NODES), SettingOf(db, constraint))
  {
    ChainBounded(db, resource, n);
    BoundMatters(ParentOf(db), SettingOf(db, constraint), resource, MAX_NODES, n);
  }

  // ---------- what a change can change ----------

  /** The nodes the check of `resource` looks at. */
  function LookedAt(db: Db, resource: string, constraint: string): seq<string> {
    Looked(ParentOf(db), SettingOf(db, Norm(constraint)), TrimSpace(resource), MAX_NODES)
  }

  lemma InForceLocal(db: Db, db': Db, resource: string, constraint: string)
    requires SameWhere(ParentOf(db), SettingOf(db, Norm(constraint)), ParentOf(db'), SettingOf(db', Norm(constraint)), LookedAt(db, resource, constraint))
    ensures InForce(db', resource, constraint) == InForce(db, resource, constraint)
  {
    ChangesAreLocal(ParentOf(db), SettingOf(db, Norm(constraint)), ParentOf(db'), SettingOf(db', Norm(constraint)), TrimSpace(resource), MAX_NODES);
  }

  lemma ParentIgnoresPolicies(db: Db, db': Db, node: string)
    requires db'.folders == db.folders
    ensures Parent(db', node) == Parent(db, node)
  {
  }

  lemma PolicyChangeLocal(db: Db, db': Db, at: string, changed: string, resource: string, constraint: string)
    requires db'.folders == db.folders
    requires forall key :: key != (at, changed) ==> (key in db'.policies <==> key in db.policies) && (key in db.policies ==> db'.policies[key] == db.policies[key])
    requires forall x :: x in LookedAt(db, resource, constraint) ==> TrimSpace(x) != at || Norm(Norm(constraint)) != changed
    ensures InForce(db', resource, constraint) == InForce(db, resource, constraint)
  {
    forall x | x in LookedAt(db, resource, constraint)
      ensures SettingOf(db', Norm(constraint))(x) == SettingOf(db, Norm(constraint))(x) && ParentOf(db')(x) == ParentOf(db)(x)
    {
      ParentIgnoresPolicies(db, db', x);
      assert (TrimSpace(x), Norm(Norm(constraint))) != (at, changed);
    }
    InForceLocal(db, db', resource, constraint);
  }

  /** Setting a policy changes the answer only for resources whose check looks at that node, that is, before
      it meets a nearer policy, and only for that constraint. */
  lemma RowSetLocal(db: Db, db': Db, at: string, changed: string, stored: Json, resource: string, constraint: string)
    requires db' == db.(policies := db.policies[(at, changed) := stored])
    requires forall x :: x in LookedAt(db, resource, constraint) ==> TrimSpace(x) != at || Norm(Norm(constraint)) != changed
    ensures InForce(db', resource, constraint) == InForce(db, resource, constraint)
  {
    PolicyChangeLocal(db, db', at, changed, resource, constraint);
  }

  lemma SetIsLocal(db: Db, parent: string, changed: string, spec: Option<Json>, resource: string, constraint: string)
    requires SetPolicy(db, parent, changed, spec).Ok?
    requires forall x :: x in LookedAt(db, resource, constraint) ==> TrimSpace(x) != TrimSpace(parent) || Norm(Norm(constraint)) != Norm(changed)
    ensures InForce(SetPolicy(db, parent, changed, spec).value, resource, constraint) == InForce(db, resource, constraint)
  {
    SetWrites(db, parent, changed, spec);
    var db' := SetPolicy(db, parent, changed, spec).value;
    RowSetLocal(db, db', TrimSpace(parent), Norm(changed), StoredSpec(spec).value, resource, constraint);
  }

  lemma DeleteIsLocal(db: Db, parent: string, changed: string, resource: string, constraint: string)
    requires forall x :: x in LookedAt(db, resource, constraint) ==> TrimSpace(x) != TrimSpace(parent) || Norm(Norm(constraint)) != Norm(changed)
    ensures InForce(DeletePolicy(db, parent, changed), resource, constraint) == InForce(db, resource, constraint)
  {
    PolicyChangeLocal(db, DeletePolicy(db, parent, changed), TrimSpace(parent), Norm(changed), resource, constraint);
  }

  lemma ParentAfterMove(db: Db, moved: string, destination: string, node: string)
    requires FindFolder(db, node) == None || FindFolder(db, node) != FindFolder(db, moved)
    ensures Parent(MoveFolder(db, moved, destination), node) == Parent(db, node)
  {
    SameFolderFound(db, node);
  }

  /** CRMParent looks the trimmed name up, and trimming again does not change it. */
  lemma SameFolderFound(db: Db, node: string)
    ensures FindFolder(db, TrimSpace(node)) == FindFolder(db, node)
  {
    TrimSpaceTrims(node);
    TrimSpaceId(TrimSpace(node));
  }

  /** Moving a folder changes the answer only for resources whose check goes on above that folder. */
  lemma MoveIsLocal(db: Db, moved: string, destination: string, resource: string, constraint: string)
    requires forall x :: x in LookedAt(db, resource, constraint) && Explicit(db, x, Norm(constraint)).None? ==>
               FindFolder(db, x).None? || FindFolder(db, x) != FindFolder(db, moved)
    ensures InForce(MoveFolder(db, moved, destination), resource, constraint) == InForce(db, resource, constraint)
  {
    var db' := MoveFolder(db, moved, destination);
    forall x | x in LookedAt(db, resource, constraint)
      ensures SettingOf(db', Norm(constraint))(x) == SettingOf(db, Norm(constraint))(x)
      ensures SettingOf(db, Norm(constraint))(x).None? ==> ParentOf(db')(x) == ParentOf(db)(x)
    {
      if Explicit(db, x, Norm(constraint)).None? { ParentAfterMove(db, moved, destination, x); }
    }
    InForceLocal(db, db', resource, constraint);
  }

  // ---------- setting, then checking ----------

  lemma FirstNode(parent: Parents, setting: Settings, resource: string)
    requires resource != "" && setting(resource).Some?
    ensures Decide(Chain(parent, resource, {}, MAX_NODES), setting) == setting(resource).value
  {
    var chain := Chain(parent, resource, {}, MAX_NODES);
    assert chain[0] == resource;
  }

  /** The checks SetOrgPolicy makes before it writes. */
  predicate Acceptable(parent: string, constraint: string, spec: Option<Json>) {
    && TrimSpace(parent) != "" && Norm(constraint) != "" && ValidParent(TrimSpace(parent))
    && Norm(Norm(constraint)) in KNOWN && StoredSpec(spec).Ok?
  }

  /** The set succeeds, and a check of the same parent and constraint finds what was stored. */
  predicate TakesEffect(db: Db, parent: string, constraint: string, spec: Option<Json>) {
    var done := SetPolicy(db, parent, constraint, spec);
    done.Ok? && StoredSpec(spec).Ok? && Explicit(done.value, TrimSpace(parent), Norm(constraint)) == Some(StoredSpec(spec).value)
  }

  lemma NormPlain(c: string)
    requires Trimmed(c) && !("constraints/" <= c)
    ensures Norm(c) == c
  {
    TrimSpaceId(c);
  }

  lemma KnownIsPlain(c: string)
    requires c in KNOWN
    ensures Norm(c) == c
  {
    assert c[0] != 'c';
    NormPlain(c);
  }

  lemma TrimTwice(s: string)
    ensures TrimSpace(TrimSpace(s)) == TrimSpace(s)
  {
    TrimSpaceTrims(s);
    TrimSpaceId(TrimSpace(s));
  }

  lemma SetWrites(db: Db, parent: string, constraint: string, spec: Option<Json>)
    ensures var done := SetPolicy(db, parent, constraint, spec);
            && (done.Ok? ==> Acceptable(parent, constraint, spec)
                             && done.value == db.(policies := db.policies[(TrimSpace(parent), Norm(constraint)) := StoredSpec(spec).value]))
            && (done.Ok? <==> Acceptable(parent, constraint, spec) && !NameClash(db, TrimSpace(parent), Norm(constraint)))
  {
  }

  /** Looking up where the row was written finds it; with a text that normalizes further it looks elsewhere. */
  lemma LookupAfterSet(policies: map<(string, string), Json>, folders: map<string, Folder>, parent: string, constraint: string, stored: Json)
    ensures var db' := Db(folders, policies[(TrimSpace(parent), Norm(constraint)) := stored]);
            Explicit(db', TrimSpace(parent), Norm(constraint)) ==
            if Norm(Norm(constraint)) == Norm(constraint) then Some(stored)
            else if (TrimSpace(parent), Norm(Norm(constraint))) in policies then Some(policies[(TrimSpace(parent), Norm(Norm(constraint)))])
            else None
  {
    TrimTwice(parent);
  }

  lemma PlainRowClashes(db: Db, p: string, c: string)
    requires Norm(c) in KNOWN && Norm(c) != c && (p, Norm(c)) in db.policies
    ensures NameClash(db, p, c)
  {
    KnownIsPlain(Norm(c));
    assert PolicyName(p, Norm(c)) == PolicyName(p, c);
  }

  /** An acceptable policy takes effect exactly when no row of the same name stands under another text and
      stripping the constraint's prefix a second time changes nothing. */
  lemma SetTakesEffectExactly(db: Db, parent: string, constraint: string, spec: Option<Json>)
    requires Acceptable(parent, constraint, spec)
    ensures TakesEffect(db, parent, constraint, spec) <==>
            !NameClash(db, TrimSpace(parent), Norm(constraint)) && Norm(Norm(constraint)) == Norm(constraint)
  {
    var p, c := TrimSpace(parent), Norm(constraint);
    SetWrites(db, parent, constraint, spec);
    LookupAfterSet(db.policies, db.folders, parent, constraint, StoredSpec(spec).value);
    if Norm(c) != c && (p, Norm(c)) in db.policies { PlainRowClashes(db, p, c); }
  }

  /** A request without a spec stands for one that does not enforce. */
  lemma StoredMeans(spec: Option<Json>)
    requires StoredSpec(spec).Ok?
    ensures S.Enforced(StoredSpec(spec).value) == (spec.Some? && S.Meaning(spec.value))
  {
    if spec.Some? {
      S.NormalizeMeans(spec.value);
    } else {
      S.NormalizeMeans(S.Object(map["rules" := S.DefaultRules(false)]));
      S.DefaultMeans(false);
    }
  }

  /** Then it is the policy in force on its own parent. */
  lemma SetTakesEffect(db: Db, parent: string, constraint: string, spec: Option<Json>)
    requires SetPolicy(db, parent, constraint, spec).Ok? && Norm(Norm(constraint)) == Norm(constraint)
    ensures InForce(SetPolicy(db, parent, constraint, spec).value, parent, constraint) == (spec.Some? && S.Meaning(spec.value))
  {
    var db' := SetPolicy(db, parent, constraint, spec).value;
    SetWrites(db, parent, constraint, spec);
    LookupAfterSet(db.policies, db.folders, parent, constraint, StoredSpec(spec).value);
    StoredMeans(spec);
    FirstNode(ParentOf(db'), SettingOf(db', Norm(constraint)), TrimSpace(parent));
  }

  /** Otherwise a set that succeeds writes a row where checks of the same constraint text never look. */
  lemma SetUnseen(db: Db, parent: string, constraint: string, spec: Option<Json>, resource: string)
    requires SetPolicy(db, parent, constraint, spec).Ok? && Norm(Norm(constraint)) != Norm(constraint)
    ensures InForce(SetPolicy(db, parent, constraint, spec).value, resource, constraint) == InForce(db, resource, constraint)
  {
    SetIsLocal(db, parent, constraint, spec, resource, constraint);
  }

  /** And while that row stands, the constraint cannot be set under its plain name. */
  lemma UnseenBlocks(db: Db, parent: string, constraint: string, spec: Option<Json>, plain: string, later: Option<Json>)
    requires SetPolicy(db, parent, constraint, spec).Ok? && Norm(Norm(constraint)) != Norm(constraint)
    requires Norm(plain) == Norm(Norm(constraint)) && StoredSpec(later).Ok?
    ensures SetPolicy(SetPolicy(db, parent, constraint, spec).value, parent, plain, later) == Err(NameTaken)
  {
    var db' := SetPolicy(db, parent, constraint, spec).value;
    var p := TrimSpace(parent);
    SetWrites(db, parent, constraint, spec);
    KnownIsPlain(Norm(plain));
    assert (p, Norm(constraint)) in db'.policies && PolicyName(p, Norm(constraint)) == PolicyName(p, Norm(plain));
    assert NameClash(db', p, Norm(plain));
  }

  /** No two rows have the same name. */
  ghost predicate NamesUnique(db: Db) {
    forall k, l :: k in db.policies && l in db.policies && PolicyName(k.0, k.1) == PolicyName(l.0, l.1) ==> k == l
  }

  /** The primary key is kept by everything that writes policies. */
  lemma NamesStayUnique(db: Db, parent: string, constraint: string, spec: Option<Json>)
    requires NamesUnique(db)
    ensures SetPolicy(db, parent, constraint, spec).Ok? ==> NamesUnique(SetPolicy(db, parent, constraint, spec).value)
    ensures NamesUnique(DeletePolicy(db, parent, constraint))
  {
    SetWrites(db, parent, constraint, spec);
  }

  /** A doubled prefix is such a text. */
  lemma DoubledPrefix(c: string)
    requires Trimmed(c) && c != "" && !("constraints/" <= c)
    ensures var text := "constraints/" + ("constraints/" + c); Norm(Norm(text)) == c && Norm(text) == "constraints/" + c
  {
    OnePrefix("constraints/" + c);
    OnePrefix(c);
  }

  lemma OnePrefix(c: string)
    requires Trimmed(c) && c != ""
    ensures Norm("constraints/" + c) == c && Trimmed("constraints/" + c)
  {
    var text := "constraints/" + c;
    assert text[0] == 'c' && text[|text| - 1] == c[|c| - 1];
    TrimSpaceId(text);
    assert text[|"constraints/"|..] == c;
    TrimSpaceId(c);
  }

  // ---------- the tables ----------

  class Tables {
    var folders: map<string, Folder>
    var policies: map<(string, string), Json>

    function State(): Db
      reads this
    {
      Db(folders, policies)
    }

    constructor ()
      ensures State() == Db(map[], map[])
    {
      folders, policies := map[], map[];
    }

    method CreateFolder(id: string, generated: string, f: Folder) returns (r: Result<bool, Error>)
      modifies this
      ensures match OrgPolicy.CreateFolder(old(State()), id, generated, f)
              case Err(e) => r == Err(e) && State() == old(State())
              case Ok(db) => r == Ok(State() != old(State())) && State() == db
    {
      if f.parent == "" || f.displayName == "" { return Err(Required); }
      var key := id;
      if key == "" { key := generated; }
      if key in folders { return Ok(false); }
      var row := f;
      if row.state == "" { row := row.(state := "ACTIVE"); }
      folders := folders[key := row];
      assert key in State().folders && key !in old(folders);
      r := Ok(true);
    }

    method MoveFolder(nameOrId: string, destination: string) returns (moved: bool)
      modifies this
      ensures State() == OrgPolicy.MoveFolder(old(State()), nameOrId, destination)
      ensures moved <==> destination != "" && FindFolder(old(State()), nameOrId).Some?
                         && old(folders)[FindFolder(old(State()), nameOrId).value].state == "ACTIVE"
    {
      if destination == "" { return false; }
      var id := FindFolder(State(), nameOrId);
      if id.None? { return false; }
      var f := folders[id.value];
      if f.state != "ACTIVE" { return false; }
      folders := folders[id.value := f.(parent := destination)];
      moved := true;
    }

    method SetOrgPolicy(rawParent: string, rawConstraint: string, spec: Option<Json>) returns (r: Result<Json, Error>)
      modifies this
      ensures match SetPolicy(old(State()), rawParent, rawConstraint, spec)
              case Err(e) => r == Err(e) && State() == old(State())
              case Ok(db) => State() == db && r.Ok? && policies == old(policies)[(TrimSpace(rawParent), Norm(rawConstraint)) := r.value]
    {
      var parent, constraint := TrimSpace(rawParent), Norm(rawConstraint);
      if parent == "" || constraint == "" { return Err(Required); }
      if !ValidParent(parent) { return Err(InvalidParent); }
      if Norm(constraint) !in KNOWN { return Err(UnknownConstraint); }
      var given := if spec.Some? then spec.value else S.Object(map["rules" := S.DefaultRules(false)]);
      var stored := S.Normalize(given);
      if stored.Err? { return Err(InvalidSpec(stored.error)); }
      if NameClash(State(), parent, constraint) { return Err(NameTaken); }
      policies := policies[(parent, constraint) := stored.value];
      r := Ok(stored.value);
    }

    method DeleteOrgPolicy(parent: string, constraint: string) returns (found: bool)
      modifies this
      ensures State() == DeletePolicy(old(State()), parent, constraint)
      ensures found <==> (TrimSpace(parent), Norm(constraint)) in old(policies)
    {
      var key := (TrimSpace(parent), Norm(constraint));
      found := key in policies;
      policies := policies - {key};
    }

    /** The walk up the ancestry. */
    method IsOrgPolicyConstraintEnforced(rawResource: string, rawConstraint: string) returns (enforced: bool)
      ensures enforced == InForce(State(), rawResource, rawConstraint)
    {
      var constraint, resource := Norm(rawConstraint), TrimSpace(rawResource);
      if resource == "" || constraint == "" { return false; }
      enforced := WalkAncestry(resource, constraint, ParentOf(State()), SettingOf(State(), constraint));
    }

    method WalkAncestry(resource: string, constraint: string, ghost parents: Parents, ghost settings: Settings) returns (enforced: bool)
      requires forall x :: Reads(State(), constraint, parents, settings, x)
      ensures enforced == Decide(Chain(parents, resource, {}, MAX_NODES), settings)
    {
      var seen: set<string> := {};
      var cur := resource;
      for i := 0 to 32
        invariant Decide(Chain(parents, resource, {}, MAX_NODES), settings) == Decide(Chain(parents, cur, seen, MAX_NODES - i), settings)
      {
        if cur == "" || cur in seen { return false; }
        WalkStep(parents, settings, cur, seen, MAX_NODES - i);
        assert Reads(State(), constraint, parents, settings, cur);
        seen := seen + {cur};
        var p := Explicit(State(), cur, constraint);
        if p.Some? {
          enforced := S.BooleanSpecEnforced(p.value);
          return;
        }
        var up := Parent(State(), cur);
        if up.None? { return false; }
        cur := up.value;
      }
      enforced := false;
    }
  }

  /** What the tables say about a node. */
  predicate Reads(db: Db, constraint: string, parents: Parents, settings: Settings, node: string) {
    && parents(node) == Parent(db, node)
    && settings(node) == match Explicit(db, node, constraint) case None => None case Some(spec) => Some(S.Enforced(spec))
  }

  /** One turn of the walk. */
  lemma WalkStep(parent: Parents, setting: Settings, cur: string, seen: set<string>, n: nat)
    requires n > 0 && cur != "" && cur !in seen
    ensures Decide(Chain(parent, cur, seen, n), setting) ==
            if setting(cur).Some? then setting(cur).value
            else match parent(cur) case None => false case Some(up) => Decide(Chain(parent, up, seen + {cur}, n - 1), setting)
  {
    var chain := Chain(parent, cur, seen, n);
    assert chain[0] == cur;
    match parent(cur)
    case None => assert chain[1..] == [];
    case Some(up) => assert chain[1..] == Chain(parent, up, seen + {cur}, n - 1);
  }
}
