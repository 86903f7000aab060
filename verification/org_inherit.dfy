/** Inheritance: a policy set on an organization or a folder decides for everything below it, down to the next node
    with a policy of its own. */
module OrgInherit {
  import opened Basics
  import opened Text
  import opened OrgPolicy
  import opened OrgResolution
  import opened OrgStore
  import S = OrgSpec

  // ---------- who is below whom ----------

  predicate OneSegment(s: string) {
    s != "" && '/' !in s
  }

  /** `x` is a project, and `y` the one organization; or `x` is a folder, and `y` what its row gives as its parent. */
  ghost predicate Below(db: Db, x: string, y: string) {
    || (exists p :: x == "projects/" + p && OneSegment(p) && y == "organizations/noctaxris-gcp-org")
    || (exists id :: x == "folders/" + id && OneSegment(id) && id in db.folders && db.folders[id].parent == y && y != "")
  }

  lemma SegmentAfter(kind: string, s: string)
    ensures Segment(kind + s, kind) == if OneSegment(s) then Some(s) else None
  {
    assert (kind + s)[|kind|..] == s;
    ContainsChar(s, '/');
  }

  lemma KindsDiffer(s: string)
    ensures !("organizations/" <= "folders/" + s) && !("organizations/" <= "projects/" + s)
    ensures !("folders/" <= "projects/" + s) && !("projects/" <= "folders/" + s)
    ensures !("projects/" <= "organizations/" + s) && !("folders/" <= "organizations/" + s)
  {
    assert "organizations/"[0] == 'o' && "folders/"[0] == 'f' && "projects/"[0] == 'p';
  }

  lemma BelowIsParent(db: Db, x: string, y: string)
    requires Below(db, x, y) && Trimmed(x)
    ensures ParentOf(db)(x) == Some(y)
  {
    TrimSpaceId(x);
    if p :| x == "projects/" + p && OneSegment(p) && y == "organizations/noctaxris-gcp-org" {
      KindsDiffer(p);
      SegmentAfter("projects/", p);
    } else {
      var id :| x == "folders/" + id && OneSegment(id) && id in db.folders && db.folders[id].parent == y && y != "";
      KindsDiffer(id);
      SegmentAfter("folders/", id);
      assert x[|"folders/"|..] == id;
    }
  }

  /** Different nodes, each below the next. */
  ghost predicate Path(db: Db, nodes: seq<string>) {
    && nodes != [] && Distinct(nodes)
    && (forall i :: 0 <= i < |nodes| ==> nodes[i] != "" && Trimmed(nodes[i]))
    && forall i :: 0 < i < |nodes| ==> Below(db, nodes[i - 1], nodes[i])
  }

  /** Different nodes, each with the next as its parent. */
  ghost predicate Links(parent: Parents, nodes: seq<string>) {
    && nodes != [] && Distinct(nodes)
    && (forall i :: 0 <= i < |nodes| ==> nodes[i] != "")
    && forall i :: 0 < i < |nodes| ==> parent(nodes[i - 1]) == Some(nodes[i])
  }

  lemma LinksOn(parent: Parents, nodes: seq<string>, seen: set<string>)
    requires Links(parent, nodes) && |nodes| > 1 && forall x :: x in nodes ==> x !in seen
    ensures Links(parent, nodes[1..]) && forall x :: x in nodes[1..] ==> x !in seen + {nodes[0]}
  {
    var rest := nodes[1..];
    assert forall i :: 0 <= i < |rest| ==> rest[i] == nodes[i + 1] && nodes[i + 1] in nodes;
  }

  lemma {:induction false} ChainFollows(parent: Parents, nodes: seq<string>, seen: set<string>, n: nat)
    requires Links(parent, nodes) && |nodes| <= n && forall x :: x in nodes ==> x !in seen
    ensures nodes <= Chain(parent, nodes[0], seen, n)
    decreases |nodes|
  {
    assert nodes[0] in nodes;
    if |nodes| > 1 {
      LinksOn(parent, nodes, seen);
      ChainFollows(parent, nodes[1..], seen + {nodes[0]}, n - 1);
      assert parent(nodes[0]) == Some(nodes[1]);
      PrefixCons(nodes, Chain(parent, nodes[1], seen + {nodes[0]}, n - 1));
    }
  }

  lemma PrefixCons<T>(a: seq<T>, rest: seq<T>)
    requires a != [] && a[1..] <= rest
    ensures a <= [a[0]] + rest
  {
  }

  lemma PathLinks(db: Db, nodes: seq<string>)
    requires Path(db, nodes)
    ensures Links(ParentOf(db), nodes)
  {
    forall i | 0 < i < |nodes| ensures ParentOf(db)(nodes[i - 1]) == Some(nodes[i]) { BelowIsParent(db, nodes[i - 1], nodes[i]); }
  }

  lemma {:induction false} DecideAlong(nodes: seq<string>, chain: seq<string>, setting: Settings)
    requires nodes != [] && nodes <= chain && setting(nodes[|nodes| - 1]).Some?
    requires Unset(setting, nodes)
    ensures Decide(chain, setting) == setting(nodes[|nodes| - 1]).value
    decreases |nodes|
  {
    if |nodes| > 1 {
      assert chain[0] == nodes[0] && nodes[1..] <= chain[1..];
      DecideAlong(nodes[1..], chain[1..], setting);
    }
  }

  /** A constraint as it is stored and looked up. */
  predicate PlainConstraint(c: string) {
    c != "" && Norm(c) == c
  }

  lemma SettingAt(db: Db, node: string, c: string)
    requires PlainConstraint(c) && Trimmed(node)
    ensures SettingOf(db, c)(node) == if (node, c) in db.policies then Some(S.Enforced(db.policies[(node, c)])) else None
  {
    TrimSpaceId(node);
  }

  /** The policy of the last of at most 32 nodes, each below the next, decides for the first when no node before it has
      one of its own. */
  lemma PolicyInherited(db: Db, nodes: seq<string>, c: string)
    requires Path(db, nodes) && |nodes| <= 32 && PlainConstraint(c)
    requires (forall i :: 0 <= i < |nodes| - 1 ==> (nodes[i], c) !in db.policies) && (nodes[|nodes| - 1], c) in db.policies
    ensures InForce(db, nodes[0], c) == S.Enforced(db.policies[(nodes[|nodes| - 1], c)])
  {
    NoneBefore(db, nodes, c);
    SettingAt(db, nodes[|nodes| - 1], c);
    PathLinks(db, nodes);
    AlongNodes(db, nodes, SettingOf(db, c), c);
  }

  lemma NoneBefore(db: Db, nodes: seq<string>, c: string)
    requires Path(db, nodes) && PlainConstraint(c) && forall i :: 0 <= i < |nodes| - 1 ==> (nodes[i], c) !in db.policies
    ensures Unset(SettingOf(db, c), nodes)
  {
    forall i | 0 <= i < |nodes| - 1 ensures SettingOf(db, c)(nodes[i]).None? { SettingAt(db, nodes[i], c); }
  }

  /** No node before the last has a setting. */
  ghost predicate Unset(setting: Settings, nodes: seq<string>) {
    forall i :: 0 <= i < |nodes| - 1 ==> setting(nodes[i]).None?
  }

  lemma AlongNodes(db: Db, nodes: seq<string>, setting: Settings, c: string)
    requires Links(ParentOf(db), nodes) && Trimmed(nodes[0]) && |nodes| <= MAX_NODES && PlainConstraint(c) && setting == SettingOf(db, c)
    requires setting(nodes[|nodes| - 1]).Some? && Unset(setting, nodes)
    ensures InForce(db, nodes[0], c) == setting(nodes[|nodes| - 1]).value
  {
    TrimSpaceId(nodes[0]);
    ChainFollows(ParentOf(db), nodes, {}, MAX_NODES);
    DecideAlong(nodes, Chain(ParentOf(db), nodes[0], {}, MAX_NODES), setting);
  }

  /** A policy that is set on the last node is in force on the first, with the meaning of its spec. */
  lemma SetReachesBelow(db: Db, nodes: seq<string>, c: string, spec: S.Json)
    requires Path(db, nodes) && |nodes| <= 32 && PlainConstraint(c)
    requires forall i :: 0 <= i < |nodes| - 1 ==> (nodes[i], c) !in db.policies
    requires SetPolicy(db, nodes[|nodes| - 1], c, Some(spec)).Ok?
    ensures InForce(SetPolicy(db, nodes[|nodes| - 1], c, Some(spec)).value, nodes[0], c) == S.Meaning(spec)
  {
    var last := nodes[|nodes| - 1];
    TrimSpaceId(last);
    SetWrites(db, last, c, Some(spec));
    var db' := SetPolicy(db, last, c, Some(spec)).value;
    S.NormalizeMeans(spec);
    assert forall i :: 0 <= i < |nodes| - 1 ==> nodes[i] != last;
    PathStays(db, db', nodes);
    PolicyInherited(db', nodes, c);
  }

  lemma PathStays(db: Db, db': Db, nodes: seq<string>)
    requires Path(db, nodes) && db'.folders == db.folders
    ensures Path(db', nodes)
  {
    forall i | 0 < i < |nodes| ensures Below(db', nodes[i - 1], nodes[i]) { assert Below(db, nodes[i - 1], nodes[i]); }
  }

  /** So a policy of the organization is in force on every project that has none. */
  lemma OrganizationDecides(db: Db, project: string, organization: string, p: string, c: string, spec: S.Json)
    requires project == "projects/" + p && OneSegment(p) && Trimmed(project) && organization == "organizations/noctaxris-gcp-org"
    requires PlainConstraint(c) && (project, c) !in db.policies && SetPolicy(db, organization, c, Some(spec)).Ok?
    ensures InForce(SetPolicy(db, organization, c, Some(spec)).value, project, c) == S.Meaning(spec)
  {
    OrganizationIsNode(project, organization);
    assert Below(db, project, organization);
    TwoNodes(db, project, organization, [project, organization]);
    SetReachesBelow(db, [project, organization], c, spec);
  }

  lemma TwoNodes(db: Db, x: string, y: string, nodes: seq<string>)
    requires Below(db, x, y) && x != y && x != "" && y != "" && Trimmed(x) && Trimmed(y) && nodes == [x, y]
    ensures Path(db, nodes)
  {
  }

  lemma OrganizationIsNode(project: string, organization: string)
    requires "projects/" <= project && organization == "organizations/noctaxris-gcp-org"
    ensures project != organization && Trimmed(organization) && organization != ""
  {
    assert "projects/"[0] == project[0];
    assert organization[0] == 'o' && organization[|organization| - 1] == 'g';
  }

  // ---------- what changes where a node is and what it has ----------

  /** Nodes that can have a policy are one segment after one of three words. */
  lemma ValidParentMeans(parent: string)
    ensures ValidParent(parent) <==>
              exists s :: OneSegment(s) && (parent == "projects/" + s || parent == "folders/" + s || parent == "organizations/" + s)
  {
    if ValidParent(parent) {
      var kind := if "projects/" <= parent then "projects/" else if "folders/" <= parent then "folders/" else "organizations/";
      var s := parent[|kind|..];
      assert parent == kind + s;
      SegmentAfter(kind, s);
    }
    if s :| OneSegment(s) && (parent == "projects/" + s || parent == "folders/" + s || parent == "organizations/" + s) {
      KindsDiffer(s);
      SegmentAfter("projects/", s);
      SegmentAfter("folders/", s);
      SegmentAfter("organizations/", s);
    }
  }

  /** A policy can be set exactly on such a node, for one of the two known constraints, with a spec that can be
      normalized, when no other row has its name. */
  lemma SetAccepted(db: Db, parent: string, c: string, spec: Option<S.Json>)
    requires Trimmed(parent) && PlainConstraint(c)
    ensures SetPolicy(db, parent, c, spec).Ok? <==>
              && ValidParent(parent) && (c == "iam.disableServiceAccountKeyCreation" || c == "storage.publicAccessPrevention")
              && StoredSpec(spec).Ok? && !NameClash(db, parent, c)
  {
    TrimSpaceId(parent);
    SetWrites(db, parent, c, spec);
    ParentIsText(parent);
  }

  lemma ParentIsText(parent: string)
    ensures ValidParent(parent) ==> parent != ""
  {
    ValidParentMeans(parent);
  }

  /** A policy that is deleted is gone, and no other is touched. */
  lemma DeleteTakesEffect(db: Db, parent: string, c: string)
    requires Trimmed(parent) && PlainConstraint(c)
    ensures DeletePolicy(db, parent, c) == db.(policies := db.policies - {(parent, c)})
    ensures SettingOf(DeletePolicy(db, parent, c), c)(parent) == None
  {
    TrimSpaceId(parent);
  }

  /** An active folder that is moved is below its new parent; any other folder stays, and so does every policy. */
  lemma MoveTakesEffect(db: Db, id: string, destination: string, other: string)
    requires OneSegment(id) && Trimmed("folders/" + id) && destination != ""
    ensures var after := MoveFolder(db, "folders/" + id, destination);
            && after.policies == db.policies && after.folders.Keys == db.folders.Keys
            && (id in db.folders && db.folders[id].state == "ACTIVE" ==> Below(after, "folders/" + id, destination))
            && (id in db.folders && db.folders[id].state != "ACTIVE" ==> after == db)
            && (id !in db.folders ==> after == db)
            && (other in db.folders && other != id ==> after.folders[other] == db.folders[other])
  {
    TrimSpaceId("folders/" + id);
    assert ("folders/" + id)[|"folders/"|..] == id;
  }

  /** Creating a folder is accepted exactly with a parent and a display name. A new one is active unless another state
      was given, and below the parent asked for; one that exists stays as it is. */
  lemma CreateTakesEffect(db: Db, id: string, generated: string, f: Folder)
    ensures var done, key := CreateFolder(db, id, generated, f), if id != "" then id else generated;
            && (done.Ok? <==> f.parent != "" && f.displayName != "")
            && (done.Ok? && key in db.folders ==> done.value == db)
            && (done.Ok? && key !in db.folders ==>
                  && done.value == db.(folders := db.folders[key := done.value.folders[key]])
                  && done.value.folders[key].displayName == f.displayName
                  && (done.value.folders[key].state == if f.state != "" then f.state else "ACTIVE")
                  && (OneSegment(key) ==> Below(done.value, "folders/" + key, f.parent)))
  {
  }
}
