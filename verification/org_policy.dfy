/** Organization policies on a graph of folders that can be rearranged at will: which policy decides. */
module OrgPolicy {
  import opened Basics
  import opened Text
  import S = OrgSpec

  type Json = S.Json

  const DEFAULT_ORGANIZATION: string := "organizations/noctaxris-gcp-org"

  const KNOWN: seq<string> := ["iam.disableServiceAccountKeyCreation", "storage.publicAccessPrevention"]

  datatype Folder = Folder(parent: string, displayName: string, state: string)

  /** Folders by id, and policies by parent and constraint. */
  datatype Db = Db(folders: map<string, Folder>, policies: map<(string, string), Json>)

  datatype Error = Required | InvalidParent | UnknownConstraint | InvalidSpec(e: S.Error) | NameTaken

  // ---------- the parent graph ----------

  /** The part after `prefix`, when it is one non-empty path segment. */
  function Segment(resource: string, prefix: string): Option<string> {
    if prefix <= resource then
      var rest := resource[|prefix|..];
      if rest == "" || Contains(rest, "/") then None else Some(rest)
    else None
  }

  /** GetFolder, for folders named after their id. */
  function FindFolder(db: Db, nameOrId: string): Option<string> {
    var id := TrimPrefix(TrimSpace(nameOrId), "folders/");
    if id != "" && id in db.folders then Some(id) else None
  }

  /** CRMParent. */
  function Parent(db: Db, raw: string): Option<string> {
    var resource := TrimSpace(raw);
    if "organizations/" <= resource then None
    else if "folders/" <= resource then
      if Segment(resource, "folders/").None? then None
      else
        match FindFolder(db, resource)
        case None => None
        case Some(id) => if db.folders[id].parent == "" then None else Some(db.folders[id].parent)
    else if "projects/" <= resource then
      if Segment(resource, "projects/").None? then None else Some(DEFAULT_ORGANIZATION)
    else None
  }

  // ---------- policies ----------

  /** NormalizeOrgConstraint. */
  function Norm(constraint: string): string {
    TrimSpace(TrimPrefix(TrimSpace(constraint), "constraints/"))
  }

  predicate ValidParent(parent: string) {
    if "projects/" <= parent then Segment(parent, "projects/").Some?
    else if "folders/" <= parent then Segment(parent, "folders/").Some?
    else Segment(parent, "organizations/").Some?
  }

  /** GetOrgPolicy. */
  function Explicit(db: Db, node: string, constraint: string): Option<Json> {
    var key := (TrimSpace(node), Norm(constraint));
    if key in db.policies then Some(db.policies[key]) else None
  }

  /** orgPolicyName: the primary key of a row. */
  function PolicyName(parent: string, constraint: string): string {
    TrimSuffix(parent, "/") + "/policies/" + Norm(constraint)
  }

  /** Another row has this row's name, although it differs in parent or constraint: the upsert does not cover
      that conflict. */
  predicate NameClash(db: Db, parent: string, constraint: string) {
    exists k :: k in db.policies && k != (parent, constraint) && PolicyName(k.0, k.1) == PolicyName(parent, constraint)
  }

  /** The spec as it would be stored; `None` is an empty text. */
  function StoredSpec(spec: Option<Json>): Result<Json, S.Error> {
    S.Normalize(if spec.Some? then spec.value else S.Object(map["rules" := S.DefaultRules(false)]))
  }

  /** SetOrgPolicy, given the decoded spec. */
  function SetPolicy(db: Db, rawParent: string, rawConstraint: string, spec: Option<Json>): Result<Db, Error> {
    var parent, constraint := TrimSpace(rawParent), Norm(rawConstraint);
    if parent == "" || constraint == "" then Err(Required)
    else if !ValidParent(parent) then Err(InvalidParent)
    else if Norm(constraint) !in KNOWN then Err(UnknownConstraint)
    else
      match StoredSpec(spec)
      case Err(e) => Err(InvalidSpec(e))
      case Ok(stored) =>
        if NameClash(db, parent, constraint) then Err(NameTaken)
        else Ok(db.(policies := db.policies[(parent, constraint) := stored]))
  }

  function DeletePolicy(db: Db, parent: string, constraint: string): Db {
    db.(policies := db.policies - {(TrimSpace(parent), Norm(constraint))})
  }

  /** MoveFolder. */
  function MoveFolder(db: Db, nameOrId: string, destination: string): Db {
    match FindFolder(db, nameOrId)
    case None => db
    case Some(id) =>
      if destination == "" || db.folders[id].state != "ACTIVE" then db
      else db.(folders := db.folders[id := db.folders[id].(parent := destination)])
  }

  /** CreateFolder, INSERT OR IGNORE; `generated` is the id made up for a folder that comes without one. */
  function CreateFolder(db: Db, id: string, generated: string, f: Folder): Result<Db, Error> {
    if f.parent == "" || f.displayName == "" then Err(Required)
    else
      var key := if id == "" then generated else id;
      if key in db.folders then Ok(db)
      else Ok(db.(folders := db.folders[key := f.(state := if f.state == "" then "ACTIVE" else f.state)]))
  }

  // ---------- resolution ----------

  const MAX_NODES: nat := 32

  /** The distinct nodes met walking up from `cur`, at most `n`, leaving out those in `seen`. */
  function Chain(parent: string -> Option<string>, cur: string, seen: set<string>, n: nat): seq<string>
    decreases n
  {
    if n == 0 || cur == "" || cur in seen then []
    else
      match parent(cur)
      case None => [cur]
      case Some(up) => [cur] + Chain(parent, up, seen + {cur}, n - 1)
  }

  /** The first node of a chain with a setting of its own decides; without one the answer is no. */
  function Decide(chain: seq<string>, setting: string -> Option<bool>): bool {
    if chain == [] then false
    else if setting(chain[0]).Some? then setting(chain[0]).value
    else Decide(chain[1..], setting)
  }

  function ParentOf(db: Db): string -> Option<string> {
    node => Parent(db, node)
  }

  /** What a node's own policy says, if it has one. */
  function SettingOf(db: Db, constraint: string): string -> Option<bool> {
    node => match Explicit(db, node, constraint) case None => None case Some(spec) => Some(S.Enforced(spec))
  }

  /** The policy in force: that of the nearest of the first 32 nodes of the parent chain that has one. */
  function InForce(db: Db, rawResource: string, rawConstraint: string): bool {
    var resource, constraint := TrimSpace(rawResource), Norm(rawConstraint);
    if resource == "" || constraint == "" then false
    else Decide(Chain(ParentOf(db), resource, {}, MAX_NODES), SettingOf(db, constraint))
  }
}
