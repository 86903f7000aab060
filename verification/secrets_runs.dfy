/** Whole runs of the secret store: every version keeps the payload it was added with until it is destroyed. */
module SecretsRuns {
  import opened Basics
  import opened Text
  import opened Decimal
  import opened SecretsModel

  datatype Op =
    | CreateOp(name: string, project: string, period: string, next: string)
    | DeleteOp(name: string)
    | AddOp(name: string, plain: Bytes, nonce: nat)
    | SetStateOp(name: string, id: string, state: string)
    | RotateOp(name: string, payload: Bytes, nonce: nat, advance: (string, string) -> Option<string>)

  function OrSame(r: Result<Db, Error>, db: Db): Db {
    if r.Ok? then r.value else db
  }

  function Apply(vault: Vault, db: Db, op: Op): Db {
    match op
    case CreateOp(name, project, period, next) => OrSame(Create(db, name, project, period, next), db)
    case DeleteOp(name) => Delete(db, name)
    case AddOp(name, plain, nonce) => OrSame(Add(vault, db, name, plain, nonce), db)
    case SetStateOp(name, id, state) => OrSame(SetState(db, name, id, state), db)
    case RotateOp(name, payload, nonce, advance) => OrSame(Rotate(vault, db, name, payload, nonce, advance), db)
  }

  /** The payload every version of every secret was added with, told without ciphertexts: a rotation
      without a payload repeats the last one if that version is enabled. */
  type Ledger = map<string, seq<Bytes>>

  function Entries(ledger: Ledger, name: string): seq<Bytes> {
    if name in ledger then ledger[name] else []
  }

  function Recorded(ledger: Ledger, db: Db, op: Op): Ledger {
    match op
    case CreateOp(rawName, rawProject, _, _) =>
      var name := TrimSpace(rawName);
      if name == "" || TrimSpace(rawProject) == "" || name in db then ledger else ledger[name := []]
    case DeleteOp(name) => ledger - {name}
    case AddOp(name, plain, _) => if name in db then ledger[name := Entries(ledger, name) + [plain]] else ledger
    case SetStateOp(_, _, _) => ledger
    case RotateOp(name, payload, _, _) =>
      if name !in db then ledger
      else
        var before, versions := Entries(ledger, name), db[name].versions;
        var plain := if payload != [] then payload
                     else if versions != [] && versions[|versions| - 1].state == Enabled && before != [] then before[|before| - 1]
                     else ROTATED;
        ledger[name := before + [plain]]
  }

  predicate KeepsPayload(vault: Vault, v: Version, plain: Bytes) {
    if v.state == Destroyed then v.ciphertext == [] else vault.unseal(v.ciphertext) == Some(plain)
  }

  ghost predicate Faithful(vault: Vault, versions: seq<Version>, payloads: seq<Bytes>) {
    |versions| == |payloads| && forall i :: 0 <= i < |versions| ==> KeepsPayload(vault, versions[i], payloads[i])
  }

  /** The tables agree with the ledger. */
  ghost predicate Agrees(vault: Vault, db: Db, ledger: Ledger) {
    db.Keys == ledger.Keys && forall name :: name in db ==> Faithful(vault, db[name].versions, Entries(ledger, name))
  }

  lemma AddAgrees(vault: Vault, db: Db, ledger: Ledger, name: string, plain: Bytes, nonce: nat)
    requires VaultOk(vault) && Agrees(vault, db, ledger) && name in db
    ensures Agrees(vault, Add(vault, db, name, plain, nonce).value, ledger[name := Entries(ledger, name) + [plain]])
  {
    var db', ledger' := Add(vault, db, name, plain, nonce).value, ledger[name := Entries(ledger, name) + [plain]];
    forall other | other in db' ensures Faithful(vault, db'[other].versions, Entries(ledger', other)) {
      assert Faithful(vault, db[other].versions, Entries(ledger, other));
    }
  }

  lemma SetStateAgrees(vault: Vault, db: Db, ledger: Ledger, name: string, id: string, state: string)
    requires Agrees(vault, db, ledger)
    ensures Agrees(vault, OrSame(SetState(db, name, id, state), db), ledger)
  {
    var db' := OrSame(SetState(db, name, id, state), db);
    forall other | other in db' ensures Faithful(vault, db'[other].versions, Entries(ledger, other)) {
      assert Faithful(vault, db[other].versions, Entries(ledger, other));
    }
  }

  lemma RotationStores(vault: Vault, db: Db, ledger: Ledger, name: string, payload: Bytes)
    requires Agrees(vault, db, ledger) && name in db
    ensures var versions, entries := db[name].versions, Entries(ledger, name);
            RotationPayload(vault, versions, payload) ==
            Ok(if payload != [] then payload
               else if versions != [] && versions[|versions| - 1].state == Enabled && entries != [] then entries[|entries| - 1]
               else ROTATED)
  {
    var versions, entries := db[name].versions, Entries(ledger, name);
    assert Faithful(vault, versions, entries);
    if versions != [] { assert KeepsPayload(vault, versions[|versions| - 1], entries[|entries| - 1]); }
  }

  lemma RotateAgrees(vault: Vault, db: Db, ledger: Ledger, op: Op)
    requires VaultOk(vault) && Agrees(vault, db, ledger) && op.RotateOp?
    ensures Agrees(vault, Apply(vault, db, op), Recorded(ledger, db, op))
  {
    if op.name in db {
      RotationStores(vault, db, ledger, op.name, op.payload);
      var plain := RotationPayload(vault, db[op.name].versions, op.payload).value;
      AddAgrees(vault, db, ledger, op.name, plain, op.nonce);
      var added := Add(vault, db, op.name, plain, op.nonce).value;
      var after := Apply(vault, db, op);
      assert Recorded(ledger, db, op) == ledger[op.name := Entries(ledger, op.name) + [plain]];
      forall other | other in after ensures other in added && after[other].versions == added[other].versions {}
    }
  }

  lemma StepAgrees(vault: Vault, db: Db, ledger: Ledger, op: Op)
    requires VaultOk(vault) && Agrees(vault, db, ledger)
    ensures Agrees(vault, Apply(vault, db, op), Recorded(ledger, db, op))
  {
    match op
    case CreateOp(name, project, period, next) =>
    case DeleteOp(name) =>
    case AddOp(name, plain, nonce) => if name in db { AddAgrees(vault, db, ledger, name, plain, nonce); }
    case SetStateOp(name, id, state) => SetStateAgrees(vault, db, ledger, name, id, state);
    case RotateOp(_, _, _, _) => RotateAgrees(vault, db, ledger, op);
  }

  function Run(vault: Vault, db: Db, ops: seq<Op>): Db
    decreases |ops|
  {
    if ops == [] then db else Run(vault, Apply(vault, db, ops[0]), ops[1..])
  }

  function RunLedger(vault: Vault, ledger: Ledger, db: Db, ops: seq<Op>): Ledger
    decreases |ops|
  {
    if ops == [] then ledger else RunLedger(vault, Recorded(ledger, db, ops[0]), Apply(vault, db, ops[0]), ops[1..])
  }

  lemma {:induction false} RunAgrees(vault: Vault, db: Db, ledger: Ledger, ops: seq<Op>)
    requires VaultOk(vault) && Agrees(vault, db, ledger)
    ensures Agrees(vault, Run(vault, db, ops), RunLedger(vault, ledger, db, ops))
    decreases |ops|
  {
    if ops != [] {
      StepAgrees(vault, db, ledger, ops[0]);
      RunAgrees(vault, Apply(vault, db, ops[0]), Recorded(ledger, db, ops[0]), ops[1..]);
    }
  }

  /** Ids are exactly 1 to n: a version is found under a text exactly when that is the plain numeral of its
      place. */
  lemma IdsAreOneToN(db: Db, name: string, i: nat)
    ensures Find(db, name, Itoa(i + 1)) == (if i < |Versions(db, name)| then Some(i) else None)
  {
    var id := Itoa(i + 1);
    ValueOfItoa(i + 1);
    ItoaIsPlain(i + 1);
    assert IsDigit(id[0]) && IsDigit(id[|id| - 1]);
    TrimSpaceId(id);
    assert "latest"[0] == 'l';
  }

  /** From the empty store on, an enabled version reads as exactly the payload that was added under its id,
      and a destroyed one holds nothing. */
  lemma PayloadsOfRun(vault: Vault, ops: seq<Op>, name: string, i: nat)
    requires VaultOk(vault)
    ensures var db, ledger := Run(vault, map[], ops), RunLedger(vault, map[], map[], ops);
            && |Versions(db, name)| == |Entries(ledger, name)|
            && (i < |Versions(db, name)| ==>
                  match Versions(db, name)[i].state
                  case Enabled => Access(vault, db, name, Itoa(i + 1)) == Ok(Entries(ledger, name)[i])
                  case Disabled => Access(vault, db, name, Itoa(i + 1)) == Err(VersionDisabled)
                  case Destroyed => Access(vault, db, name, Itoa(i + 1)) == Err(VersionDestroyed) && Versions(db, name)[i].ciphertext == [])
  {
    RunAgrees(vault, map[], map[], ops);
    var db, ledger := Run(vault, map[], ops), RunLedger(vault, map[], map[], ops);
    IdsAreOneToN(db, name, i);
    if name in db {
      assert Faithful(vault, db[name].versions, Entries(ledger, name));
      if i < |db[name].versions| { assert KeepsPayload(vault, db[name].versions[i], Entries(ledger, name)[i]); }
    }
  }

  // ---------- destroyed for good ----------

  predicate Gone(db: Db, name: string, i: nat) {
    i < |Versions(db, name)| && Versions(db, name)[i] == Version([], Destroyed)
  }

  lemma GoneStep(vault: Vault, db: Db, op: Op, name: string, i: nat)
    requires Gone(db, name, i) && !(op.DeleteOp? && op.name == name)
    ensures Gone(Apply(vault, db, op), name, i)
  {
    match op
    case CreateOp(_, _, _, _) =>
    case DeleteOp(_) =>
    case AddOp(_, _, _) =>
    case SetStateOp(_, _, _) =>
    case RotateOp(_, _, _, _) =>
  }

  /** A destroyed version stays destroyed and empty until its secret is deleted. */
  lemma {:induction false} DestroyedForGood(vault: Vault, db: Db, ops: seq<Op>, name: string, i: nat)
    requires Gone(db, name, i) && forall op :: op in ops ==> !(op.DeleteOp? && op.name == name)
    ensures Gone(Run(vault, db, ops), name, i)
    decreases |ops|
  {
    if ops != [] {
      assert ops[0] in ops;
      GoneStep(vault, db, ops[0], name, i);
      DestroyedForGood(vault, Apply(vault, db, ops[0]), ops[1..], name, i);
    }
  }

  /** While a secret exists none of its versions is lost, and an operation adds at most one. */
  lemma VersionsGrow(vault: Vault, db: Db, op: Op, name: string)
    requires name in db && !(op.DeleteOp? && op.name == name)
    ensures |Versions(db, name)| <= |Versions(Apply(vault, db, op), name)| <= |Versions(db, name)| + 1
  {
    match op
    case CreateOp(_, _, _, _) =>
    case DeleteOp(_) =>
    case AddOp(_, _, _) =>
    case SetStateOp(_, _, _) =>
    case RotateOp(_, _, _, _) =>
  }

  // ---------- rotation ----------

  lemma LatestIsLast(db: Db, name: string)
    ensures Find(db, name, "latest") == (if |Versions(db, name)| == 0 then None else Some(|Versions(db, name)| - 1))
  {
    TrimSpaceId("latest");
  }

  /** Rotating without a payload adds a version and leaves what is read through "latest" unchanged, exactly
      when the latest version is enabled; otherwise the new value is the word "rotated", even if an earlier
      version is enabled. */
  lemma RotationKeepsValue(vault: Vault, db: Db, ledger: Ledger, name: string, nonce: nat, advance: (string, string) -> Option<string>)
    requires VaultOk(vault) && Agrees(vault, db, ledger) && name in db
    ensures var after := Apply(vault, db, RotateOp(name, [], nonce, advance));
            && |Versions(after, name)| == |Versions(db, name)| + 1
            && Access(vault, after, name, "latest") == (if Access(vault, db, name, "latest").Ok? then Access(vault, db, name, "latest") else Ok(ROTATED))
  {
    RotationStores(vault, db, ledger, name, []);
    LatestIsLast(db, name);
    var after := Apply(vault, db, RotateOp(name, [], nonce, advance));
    LatestIsLast(after, name);
    var versions, entries := db[name].versions, Entries(ledger, name);
    assert Faithful(vault, versions, entries);
    if versions != [] { assert KeepsPayload(vault, versions[|versions| - 1], entries[|entries| - 1]); }
  }
}
