/** Secrets and their versions: the versions of a secret are a list, and version `i` of it has the id
    written `i`. */
module SecretsModel {
  import opened Basics
  import opened Text
  import opened Decimal

  datatype State = Enabled | Disabled | Destroyed

  datatype Version = Version(ciphertext: Bytes, state: State)

  datatype Secret = Secret(projectId: string, rotationPeriod: string, nextRotationTime: string, versions: seq<Version>)

  type Db = map<string, Secret>

  /** The sealing library; `nonce` stands for the randomness of one call. */
  datatype Vault = Vault(seal: (Bytes, nat) -> Bytes, unseal: Bytes -> Option<Bytes>)

  ghost predicate VaultOk(vault: Vault) {
    forall x, nonce :: vault.unseal(vault.seal(x, nonce)) == Some(x)
  }

  datatype Error = NameRequired | SecretNotFound | VersionNotFound | VersionDestroyed | VersionDisabled | InvalidState | UnsealFailed

  function StateOf(text: string): Option<State> {
    if text == "ENABLED" then Some(Enabled)
    else if text == "DISABLED" then Some(Disabled)
    else if text == "DESTROYED" then Some(Destroyed)
    else None
  }

  // ---------- reading ----------

  /** The place of a version in a list of `n`, by the text of its id. */
  function Place(n: nat, id: string): Option<nat> {
    if id == "" || id == "latest" then (if n == 0 then None else Some(n - 1))
    else if Plain(id) && 1 <= Value(id) <= n then Some(Value(id) - 1)
    else None
  }

  function Versions(db: Db, name: string): seq<Version> {
    if name in db then db[name].versions else []
  }

  /** GetSecretVersion. */
  function Find(db: Db, name: string, rawId: string): Option<nat> {
    Place(|Versions(db, name)|, TrimSpace(rawId))
  }

  function Open(vault: Vault, v: Version): Result<Bytes, Error> {
    match v.state
    case Destroyed => Err(VersionDestroyed)
    case Disabled => Err(VersionDisabled)
    case Enabled => (match vault.unseal(v.ciphertext) case None => Err(UnsealFailed) case Some(plain) => Ok(plain))
  }

  /** AccessSecretVersion. */
  function Access(vault: Vault, db: Db, name: string, rawId: string): Result<Bytes, Error> {
    match Find(db, name, rawId)
    case None => Err(VersionNotFound)
    case Some(i) => if i < |Versions(db, name)| then Open(vault, Versions(db, name)[i]) else Err(VersionNotFound)
  }

  // ---------- changing ----------

  /** CreateSecret, INSERT OR IGNORE. */
  function Create(db: Db, rawName: string, rawProject: string, period: string, next: string): Result<Db, Error> {
    var name, project := TrimSpace(rawName), TrimSpace(rawProject);
    if name == "" || project == "" then Err(NameRequired)
    else if name in db then Ok(db)
    else Ok(db[name := Secret(project, TrimSpace(period), TrimSpace(next), [])])
  }

  function Delete(db: Db, name: string): Db {
    db - {name}
  }

  function WithVersions(db: Db, name: string, versions: seq<Version>): Db {
    if name in db then db[name := db[name].(versions := versions)] else db
  }

  /** AddSecretVersion: the new version's id is one more than the highest. */
  function Add(vault: Vault, db: Db, name: string, plain: Bytes, nonce: nat): Result<Db, Error> {
    if name !in db then Err(SecretNotFound)
    else Ok(WithVersions(db, name, db[name].versions + [Version(vault.seal(plain, nonce), Enabled)]))
  }

  /** SetSecretVersionState. */
  function SetState(db: Db, name: string, rawId: string, text: string): Result<Db, Error> {
    match Find(db, name, rawId)
    case None => Err(VersionNotFound)
    case Some(i) =>
      var versions := Versions(db, name);
      if i >= |versions| then Err(VersionNotFound)
      else if versions[i].state == Destroyed then Err(VersionDestroyed)
      else
        match StateOf(text)
        case None => Err(InvalidState)
        case Some(state) =>
          var v := Version(if state == Destroyed then [] else versions[i].ciphertext, state);
          Ok(WithVersions(db, name, versions[i := v]))
  }

  const ROTATED: Bytes := [114, 111, 116, 97, 116, 101, 100]

  /** What a rotation stores: the payload given, else that of the latest version if it is enabled, else the
      word "rotated". */
  function RotationPayload(vault: Vault, versions: seq<Version>, payload: Bytes): Result<Bytes, Error> {
    if payload != [] then Ok(payload)
    else if versions == [] || versions[|versions| - 1].state != Enabled then Ok(ROTATED)
    else
      match vault.unseal(versions[|versions| - 1].ciphertext)
      case None => Err(UnsealFailed)
      case Some(plain) => Ok(plain)
  }

  /** RotateSecretTheatre; `advance` adds the period to the next rotation time, when it can read both. */
  function Rotate(vault: Vault, db: Db, name: string, payload: Bytes, nonce: nat, advance: (string, string) -> Option<string>): Result<Db, Error> {
    if name !in db then Err(SecretNotFound)
    else
      match RotationPayload(vault, db[name].versions, payload)
      case Err(e) => Err(e)
      case Ok(plain) =>
        match Add(vault, db, name, plain, nonce)
        case Err(e) => Err(e)
        case Ok(db1) =>
          var s := db[name];
          var next := if s.rotationPeriod != "" && s.nextRotationTime != "" then advance(s.nextRotationTime, s.rotationPeriod) else None;
          Ok(if next.Some? && name in db1 then db1[name := db1[name].(nextRotationTime := next.value)] else db1)
  }
}
