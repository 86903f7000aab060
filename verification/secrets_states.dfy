/** What changing the state of a version does, which texts name which version, and what creating, deleting and rotating
    a secret leave behind. */
module SecretsStates {
  import opened Basics
  import opened Text
  import opened Decimal
  import opened SecretsModel
  import opened SecretsRuns

  // ---------- names of versions ----------

  /** A text names a version exactly when, without the white space around it, it is the version's numeral, or "latest"
      or nothing for the last one. */
  lemma NamesVersion(db: Db, name: string, raw: string, i: nat)
    ensures Find(db, name, raw) == Some(i) <==>
              && i < |Versions(db, name)|
              && (TrimSpace(raw) == Itoa(i + 1) || (TrimSpace(raw) in {"", "latest"} && i + 1 == |Versions(db, name)|))
  {
    var id := TrimSpace(raw);
    ValueOfItoa(i + 1);
    ItoaIsPlain(i + 1);
    assert "latest"[0] == 'l' && IsDigit(Itoa(i + 1)[0]);
    if Plain(id) { ItoaOfValue(id); }
  }

  // ---------- states ----------

  /** The version at `i` is the only one that may differ. */
  ghost predicate OnlyVersion(db: Db, after: Db, name: string, i: nat) {
    && after.Keys == db.Keys && |Versions(after, name)| == |Versions(db, name)|
    && (forall n :: n in db && n != name ==> after[n] == db[n])
    && (forall j :: 0 <= j < |Versions(db, name)| && j != i ==> Versions(after, name)[j] == Versions(db, name)[j])
  }

  /** A change of state is accepted exactly for a version that is there and not destroyed, and one of the three states.
      Then reading the version succeeds with what was added, or is refused as disabled or destroyed, as was asked for;
      a destroyed one holds nothing; and no other version changes. */
  lemma StateTakesEffect(vault: Vault, db: Db, ledger: Ledger, name: string, i: nat, text: string)
    requires VaultOk(vault) && Agrees(vault, db, ledger) && i < |Versions(db, name)|
    ensures var done := SetState(db, name, Itoa(i + 1), text);
            && (done.Ok? <==> Versions(db, name)[i].state != Destroyed && text in {"ENABLED", "DISABLED", "DESTROYED"})
            && (done.Ok? ==>
                  && OnlyVersion(db, done.value, name, i)
                  && Access(vault, done.value, name, Itoa(i + 1)) ==
                     (if text == "ENABLED" then Ok(Entries(ledger, name)[i]) else if text == "DISABLED" then Err(VersionDisabled) else Err(VersionDestroyed))
                  && (text == "DESTROYED" ==> Versions(done.value, name)[i].ciphertext == []))
  {
    IdsAreOneToN(db, name, i);
    var done := SetState(db, name, Itoa(i + 1), text);
    SetStateAgrees(vault, db, ledger, name, Itoa(i + 1), text);
    assert Faithful(vault, db[name].versions, Entries(ledger, name));
    if done.Ok? {
      IdsAreOneToN(done.value, name, i);
      assert KeepsPayload(vault, db[name].versions[i], Entries(ledger, name)[i]);
    }
  }

  /** A version that is not there, or destroyed, is refused. */
  lemma StateRefused(db: Db, name: string, raw: string, text: string)
    ensures Find(db, name, raw) == None ==> SetState(db, name, raw, text) == Err(VersionNotFound)
    ensures SetState(db, name, raw, text).Ok? ==> Find(db, name, raw).Some?
  {
  }

  // ---------- adding, creating, deleting ----------

  /** Adding is accepted exactly for a secret that exists; the new version is the latest, enabled, and reads as what was
      added; the others stay. */
  lemma AddedIsLatest(vault: Vault, db: Db, name: string, plain: Bytes, nonce: nat)
    requires VaultOk(vault)
    ensures var done := Add(vault, db, name, plain, nonce);
            && (done.Ok? <==> name in db)
            && (done.Ok? ==>
                  && Access(vault, done.value, name, "latest") == Ok(plain)
                  && Access(vault, done.value, name, Itoa(|Versions(db, name)| + 1)) == Ok(plain)
                  && |Versions(done.value, name)| == |Versions(db, name)| + 1
                  && (forall j :: 0 <= j < |Versions(db, name)| ==> Versions(done.value, name)[j] == Versions(db, name)[j])
                  && done.value.Keys == db.Keys && forall n :: n in db && n != name ==> done.value[n] == db[n])
  {
    if name in db {
      var after := Add(vault, db, name, plain, nonce).value;
      LatestIsLast(after, name);
      IdsAreOneToN(after, name, |Versions(db, name)|);
    }
  }

  /** Creating is accepted exactly with a name and a project. A new secret has the rotation asked for and no version;
      one that exists stays as it is. */
  lemma CreatedIsEmpty(db: Db, rawName: string, rawProject: string, period: string, next: string)
    ensures var done, name := Create(db, rawName, rawProject, period, next), TrimSpace(rawName);
            && (done.Ok? <==> name != "" && TrimSpace(rawProject) != "")
            && (done.Ok? && name in db ==> done.value == db)
            && (done.Ok? && name !in db ==>
                  && done.value.Keys == db.Keys + {name} && (forall n :: n in db ==> done.value[n] == db[n])
                  && var s := done.value[name];
                  s.versions == [] && s.projectId == TrimSpace(rawProject) && s.rotationPeriod == TrimSpace(period) && s.nextRotationTime == TrimSpace(next))
  {
  }

  /** Deleting a secret takes all its versions with it and nothing else. */
  lemma DeletedIsGone(vault: Vault, db: Db, name: string, raw: string)
    ensures var after := Delete(db, name);
            && after.Keys == db.Keys - {name} && (forall n :: n in after ==> after[n] == db[n])
            && Access(vault, after, name, raw) == Err(VersionNotFound) && Add(vault, after, name, [], 0) == Err(SecretNotFound)
  {
  }

  // ---------- rotating ----------

  /** A rotation with a payload adds it as the latest version. Any accepted rotation moves the next rotation time on by
      the period if both are there and can be read, and leaves it otherwise. */
  lemma RotationMeaning(vault: Vault, db: Db, name: string, payload: Bytes, nonce: nat, advance: (string, string) -> Option<string>)
    requires VaultOk(vault) && name in db
    ensures payload != [] ==> Rotate(vault, db, name, payload, nonce, advance).Ok?
    ensures var done := Rotate(vault, db, name, payload, nonce, advance);
            done.Ok? ==>
              && name in done.value
              && (payload != [] ==> Access(vault, done.value, name, "latest") == Ok(payload))
              && done.value[name].rotationPeriod == db[name].rotationPeriod
              && var moved := advance(db[name].nextRotationTime, db[name].rotationPeriod);
              done.value[name].nextRotationTime ==
                if db[name].rotationPeriod != "" && db[name].nextRotationTime != "" && moved.Some? then moved.value else db[name].nextRotationTime
  {
    var done := Rotate(vault, db, name, payload, nonce, advance);
    if done.Ok? {
      LatestIsLast(done.value, name);
      if payload != [] { assert RotationPayload(vault, db[name].versions, payload) == Ok(payload); }
    }
  }
}
