/** The secret tables: one row for a secret, one row for a version, keyed by the text of its id. */
module SecretsStore {
  import opened Basics
  import opened Text
  import opened Decimal
  import opened SecretsModel
  import opened SecretsRuns

  datatype SecretRow = SecretRow(projectId: string, rotationPeriod: string, nextRotationTime: string)

  type Rows = map<(string, string), Version>

  /** CAST(version_id AS INTEGER), on digits. */
  function Cast(id: string): nat {
    if AllDigits(id) then Value(id) else 0
  }

  function Ids(rows: Rows, name: string): set<nat> {
    set k | k in rows && k.0 == name :: Cast(k.1)
  }

  /** Row `i + 1` of a secret. */
  function RowAt(rows: Rows, name: string, i: nat): Version {
    if (name, Itoa(i + 1)) in rows then rows[(name, Itoa(i + 1))] else Version([], Destroyed)
  }

  function RowList(rows: Rows, name: string, n: nat): (r: seq<Version>)
    ensures |r| == n && forall i :: 0 <= i < n ==> r[i] == RowAt(rows, name, i)
  {
    seq(n, i requires 0 <= i < n => RowAt(rows, name, i))
  }

  /** The rows of a secret are exactly those with the ids 1 to n. */
  ghost predicate OneToN(rows: Rows, name: string, n: nat) {
    forall id :: (name, id) in rows <==> Plain(id) && 1 <= Value(id) <= n
  }

  lemma PlainId(id: string)
    requires Plain(id)
    ensures id == Itoa(Value(id)) && Cast(id) == Value(id)
  {
    ItoaOfValue(id);
  }

  lemma NumberId(v: nat)
    ensures Plain(Itoa(v)) && Value(Itoa(v)) == v && Cast(Itoa(v)) == v
  {
    ValueOfItoa(v);
    ItoaIsPlain(v);
  }

  lemma HighestId(rows: Rows, name: string, n: nat)
    requires OneToN(rows, name, n)
    ensures Ids(rows, name) == {} <==> n == 0
    ensures n > 0 ==> MaxOf(Ids(rows, name)) == n
  {
    if n > 0 {
      NumberId(n);
      assert (name, Itoa(n)) in rows;
      assert n in Ids(rows, name);
    }
    forall v | v in Ids(rows, name) ensures 1 <= v <= n {
      var k :| k in rows && k.0 == name && Cast(k.1) == v;
      assert (name, k.1) in rows;
    }
  }

  /** One more row with the next id. */
  lemma AddedRow(rows: Rows, name: string, n: nat, v: Version)
    requires OneToN(rows, name, n)
    ensures var rows' := rows[(name, Itoa(n + 1)) := v];
            OneToN(rows', name, n + 1) && RowList(rows', name, n + 1) == RowList(rows, name, n) + [v]
  {
    var rows' := rows[(name, Itoa(n + 1)) := v];
    NumberId(n + 1);
    forall id ensures (name, id) in rows' <==> Plain(id) && 1 <= Value(id) <= n + 1 {
      if Plain(id) { PlainId(id); }
    }
    forall i | 0 <= i < n ensures RowAt(rows', name, i) == RowAt(rows, name, i) { NumberId(i + 1); }
  }

  lemma ChangedRow(rows: Rows, name: string, n: nat, i: nat, v: Version)
    requires OneToN(rows, name, n) && i < n
    ensures var rows' := rows[(name, Itoa(i + 1)) := v];
            OneToN(rows', name, n) && RowList(rows', name, n) == RowList(rows, name, n)[i := v]
  {
    var rows' := rows[(name, Itoa(i + 1)) := v];
    NumberId(i + 1);
    forall j | 0 <= j < n ensures RowAt(rows', name, j) == RowList(rows, name, n)[i := v][j] { NumberId(j + 1); }
  }

  lemma OtherRows(rows: Rows, name: string, id: string, v: Version, other: string, n: nat)
    requires other != name && OneToN(rows, other, n)
    ensures OneToN(rows[(name, id) := v], other, n) && RowList(rows[(name, id) := v], other, n) == RowList(rows, other, n)
  {
  }

  // ---------- the tables as a value ----------

  /** `counts` is not stored: it is the number of versions of each secret. */
  datatype Tables = Tables(secrets: map<string, SecretRow>, rows: Rows, counts: map<string, nat>)

  function Count(t: Tables, name: string): nat {
    if name in t.counts then t.counts[name] else 0
  }

  ghost predicate TablesOk(t: Tables) {
    && t.counts.Keys == t.secrets.Keys
    && forall name :: OneToN(t.rows, name, Count(t, name))
  }

  function SecretAt(row: SecretRow, rows: Rows, name: string, n: nat): Secret {
    Secret(row.projectId, row.rotationPeriod, row.nextRotationTime, RowList(rows, name, n))
  }

  /** What the tables stand for. */
  function View(t: Tables): Db {
    map name | name in t.secrets :: SecretAt(t.secrets[name], t.rows, name, Count(t, name))
  }

  lemma SameDb(a: Db, b: Db)
    requires forall name :: (name in a <==> name in b) && (name in a ==> a[name] == b[name])
    ensures a == b
  {
  }

  lemma CreatedView(t: Tables, name: string, row: SecretRow)
    requires TablesOk(t) && name !in t.secrets
    ensures var t' := t.(secrets := t.secrets[name := row], counts := t.counts[name := 0]);
            TablesOk(t') && View(t') == View(t)[name := Secret(row.projectId, row.rotationPeriod, row.nextRotationTime, [])]
  {
    var t' := t.(secrets := t.secrets[name := row], counts := t.counts[name := 0]);
    forall other ensures Count(t', other) == Count(t, other) {}
    assert RowList(t.rows, name, 0) == [];
    SameDb(View(t'), View(t)[name := Secret(row.projectId, row.rotationPeriod, row.nextRotationTime, [])]);
  }

  function RowsWithout(rows: Rows, name: string): Rows {
    map k | k in rows && k.0 != name :: rows[k]
  }

  lemma DeletedView(t: Tables, name: string)
    requires TablesOk(t)
    ensures var t' := Tables(t.secrets - {name}, RowsWithout(t.rows, name), t.counts - {name});
            TablesOk(t') && View(t') == View(t) - {name}
  {
    var t' := Tables(t.secrets - {name}, RowsWithout(t.rows, name), t.counts - {name});
    forall other ensures OneToN(t'.rows, other, Count(t', other)) {
      assert OneToN(t.rows, other, Count(t, other));
      assert other != name ==> Count(t', other) == Count(t, other);
    }
    forall other | other in t'.secrets ensures View(t')[other] == View(t)[other] {
      assert RowList(t'.rows, other, Count(t', other)) == RowList(t.rows, other, Count(t, other));
    }
    SameDb(View(t'), View(t) - {name});
  }

  lemma AddedView(t: Tables, name: string, v: Version)
    requires TablesOk(t) && name in t.secrets
    ensures var n := Count(t, name);
            var t' := t.(rows := t.rows[(name, Itoa(n + 1)) := v], counts := t.counts[name := n + 1]);
            TablesOk(t') && View(t') == WithVersions(View(t), name, View(t)[name].versions + [v])
  {
    var n := Count(t, name);
    var t' := t.(rows := t.rows[(name, Itoa(n + 1)) := v], counts := t.counts[name := n + 1]);
    AddedRow(t.rows, name, n, v);
    forall other ensures OneToN(t'.rows, other, Count(t', other)) && (other != name ==> RowList(t'.rows, other, Count(t', other)) == RowList(t.rows, other, Count(t, other))) {
      assert OneToN(t.rows, other, Count(t, other));
      if other != name { OtherRows(t.rows, name, Itoa(n + 1), v, other, Count(t, other)); }
    }
    SameDb(View(t'), WithVersions(View(t), name, View(t)[name].versions + [v]));
  }

  lemma ChangedView(t: Tables, name: string, i: nat, v: Version)
    requires TablesOk(t) && name in t.secrets && i < Count(t, name)
    ensures var t' := t.(rows := t.rows[(name, Itoa(i + 1)) := v]);
            TablesOk(t') && View(t') == WithVersions(View(t), name, View(t)[name].versions[i := v])
  {
    var n := Count(t, name);
    var t' := t.(rows := t.rows[(name, Itoa(i + 1)) := v]);
    ChangedRow(t.rows, name, n, i, v);
    forall other ensures OneToN(t'.rows, other, Count(t', other)) && (other != name ==> RowList(t'.rows, other, Count(t', other)) == RowList(t.rows, other, Count(t, other))) {
      assert OneToN(t.rows, other, Count(t, other));
      if other != name { OtherRows(t.rows, name, Itoa(i + 1), v, other, Count(t, other)); }
    }
    SameDb(View(t'), WithVersions(View(t), name, View(t)[name].versions[i := v]));
  }

  lemma RescheduledView(t: Tables, name: string, next: string)
    requires TablesOk(t) && name in t.secrets
    ensures var t' := t.(secrets := t.secrets[name := t.secrets[name].(nextRotationTime := next)]);
            TablesOk(t') && View(t') == View(t)[name := View(t)[name].(nextRotationTime := next)]
  {
    var t' := t.(secrets := t.secrets[name := t.secrets[name].(nextRotationTime := next)]);
    assert t'.counts.Keys == t.counts.Keys == t'.secrets.Keys;
    forall other ensures OneToN(t'.rows, other, Count(t', other)) { assert OneToN(t.rows, other, Count(t, other)); }
    SameDb(View(t'), View(t)[name := View(t)[name].(nextRotationTime := next)]);
  }

  lemma RowOfPlace(t: Tables, name: string, i: nat)
    requires TablesOk(t) && i < |Versions(View(t), name)|
    ensures (name, Itoa(i + 1)) in t.rows && t.rows[(name, Itoa(i + 1))] == Versions(View(t), name)[i]
  {
    assert OneToN(t.rows, name, Count(t, name));
    NumberId(i + 1);
  }

  lemma CountIs(t: Tables, name: string)
    requires TablesOk(t)
    ensures |Versions(View(t), name)| == Count(t, name) && OneToN(t.rows, name, Count(t, name))
    ensures name !in t.secrets ==> Count(t, name) == 0
  {
    assert name in t.counts.Keys <==> name in t.secrets.Keys;
  }

  // ---------- the tables as the store holds them ----------

  class Store {
    const vault: Vault
    var secrets: map<string, SecretRow>
    var rows: Rows
    ghost var counts: map<string, nat>

    ghost function Held(): Tables
      reads this
    {
      Tables(secrets, rows, counts)
    }

    ghost predicate Valid()
      reads this
    {
      TablesOk(Held())
    }

    ghost function State(): Db
      reads this
    {
      View(Held())
    }

    constructor (vault: Vault)
      ensures this.vault == vault && Valid() && State() == map[]
    {
      this.vault := vault;
      secrets, rows, counts := map[], map[], map[];
    }

    method CreateSecret(rawName: string, rawProject: string, period: string, next: string) returns (r: Result<bool, Error>)
      requires Valid()
      modifies this
      ensures Valid()
      ensures match Create(old(State()), rawName, rawProject, period, next)
              case Err(e) => r == Err(e) && State() == old(State())
              case Ok(db) => r == Ok(TrimSpace(rawName) !in old(secrets)) && State() == db
    {
      var name, project := TrimSpace(rawName), TrimSpace(rawProject);
      if name == "" || project == "" { return Err(NameRequired); }
      r := Ok(name !in secrets);
      if name !in secrets {
        var row := SecretRow(project, TrimSpace(period), TrimSpace(next));
        CreatedView(Held(), name, row);
        secrets := secrets[name := row];
        counts := counts[name := 0];
      }
    }

    /** One transaction: the versions and the secret. */
    method DeleteSecret(name: string) returns (found: bool)
      requires Valid()
      modifies this
      ensures Valid() && found == (name in old(secrets)) && State() == Delete(old(State()), name)
    {
      DeletedView(Held(), name);
      found := name in secrets;
      rows := RowsWithout(rows, name);
      secrets := secrets - {name};
      counts := counts - {name};
    }

    /** The id of the version found: GetSecretVersion. */
    method GetSecretVersion(name: string, rawId: string) returns (r: Option<string>)
      requires Valid()
      ensures match Find(State(), name, rawId)
              case None => r == None
              case Some(i) => r == Some(Itoa(i + 1)) && i < |Versions(State(), name)| && (name, Itoa(i + 1)) in rows
                              && rows[(name, Itoa(i + 1))] == Versions(State(), name)[i]
    {
      CountIs(Held(), name);
      ghost var n := Count(Held(), name);
      var id := TrimSpace(rawId);
      if id == "" || id == "latest" {
        HighestId(rows, name, n);
        var ids := set k | k in rows && k.0 == name :: Cast(k.1);
        assert ids == Ids(rows, name);
        if ids == {} { return None; }
        var k :| k in rows && k.0 == name && Cast(k.1) == MaxOf(ids);
        assert k == (name, k.1);
        PlainId(k.1);
        RowOfPlace(Held(), name, n - 1);
        return Some(k.1);
      }
      if (name, id) in rows {
        PlainId(id);
        RowOfPlace(Held(), name, Value(id) - 1);
        return Some(id);
      }
      r := None;
    }

    method AccessSecretVersion(name: string, rawId: string) returns (r: Result<Bytes, Error>)
      requires Valid()
      ensures r == Access(vault, State(), name, rawId)
    {
      var id := GetSecretVersion(name, rawId);
      if id.None? { return Err(VersionNotFound); }
      var v := rows[(name, id.value)];
      match v.state {
        case Destroyed => return Err(VersionDestroyed);
        case Disabled => return Err(VersionDisabled);
        case Enabled =>
          var plain := vault.unseal(v.ciphertext);
          return if plain.None? then Err(UnsealFailed) else Ok(plain.value);
      }
    }

    /** One more than the highest id. */
    method NextId(name: string) returns (id: string)
      requires Valid()
      ensures id == Itoa(Count(Held(), name) + 1)
    {
      CountIs(Held(), name);
      HighestId(rows, name, Count(Held(), name));
      var ids := set k | k in rows && k.0 == name :: Cast(k.1);
      assert ids == Ids(rows, name);
      id := Itoa(if ids == {} then 1 else MaxOf(ids) + 1);
    }

    method AddSecretVersion(name: string, plain: Bytes, nonce: nat) returns (r: Result<string, Error>)
      requires Valid()
      modifies this`rows, this`counts
      ensures Valid()
      ensures match Add(vault, old(State()), name, plain, nonce)
              case Err(e) => r == Err(e) && State() == old(State())
              case Ok(db) => r == Ok(Itoa(|Versions(old(State()), name)| + 1)) && State() == db
    {
      if name !in secrets { return Err(SecretNotFound); }
      CountIs(Held(), name);
      var id := NextId(name);
      var v := Version(vault.seal(plain, nonce), Enabled);
      AddedView(Held(), name, v);
      rows := rows[(name, id) := v];
      counts := counts[name := Count(Held(), name) + 1];
      r := Ok(id);
    }

    /** UPDATE of one row. */
    method WriteRow(name: string, ghost i: nat, id: string, v: Version)
      requires Valid() && id == Itoa(i + 1) && i < |Versions(State(), name)|
      modifies this`rows
      ensures Valid() && State() == WithVersions(old(State()), name, Versions(old(State()), name)[i := v])
    {
      CountIs(Held(), name);
      ChangedView(Held(), name, i, v);
      rows := rows[(name, id) := v];
    }

    method SetSecretVersionState(name: string, rawId: string, text: string) returns (r: Result<Version, Error>)
      requires Valid()
      modifies this`rows
      ensures Valid()
      ensures match SetState(old(State()), name, rawId, text)
              case Err(e) => r == Err(e) && State() == old(State())
              case Ok(db) => State() == db && r.Ok? && StateOf(text) == Some(r.value.state)
    {
      var id := GetSecretVersion(name, rawId);
      if id.None? { return Err(VersionNotFound); }
      var v := rows[(name, id.value)];
      if v.state == Destroyed { return Err(VersionDestroyed); }
      var state := StateOf(text);
      if state.None? { return Err(InvalidState); }
      var w := if state.value == Destroyed then Version([], Destroyed) else v.(state := state.value);
      WriteRow(name, Find(State(), name, rawId).value, id.value, w);
      r := Ok(w);
    }

    /** The payload a rotation stores. */
    method PayloadToStore(name: string, payload: Bytes) returns (r: Result<Bytes, Error>)
      requires Valid()
      ensures r == RotationPayload(vault, Versions(State(), name), payload)
    {
      if payload != [] { return Ok(payload); }
      LatestIsLast(State(), name);
      var latest := GetSecretVersion(name, "latest");
      if latest.None? || rows[(name, latest.value)].state != Enabled { return Ok(ROTATED); }
      var plain := vault.unseal(rows[(name, latest.value)].ciphertext);
      r := if plain.None? then Err(UnsealFailed) else Ok(plain.value);
    }

    method RotateSecretTheatre(name: string, payload: Bytes, nonce: nat, advance: (string, string) -> Option<string>) returns (r: Result<string, Error>)
      requires Valid()
      modifies this
      ensures Valid()
      ensures match Rotate(vault, old(State()), name, payload, nonce, advance)
              case Err(e) => r == Err(e) && State() == old(State())
              case Ok(db) => State() == db && r == Ok(Itoa(|Versions(old(State()), name)| + 1))
    {
      if name !in secrets { return Err(SecretNotFound); }
      var s := secrets[name];
      var plain := PayloadToStore(name, payload);
      if plain.Err? { return Err(plain.error); }
      r := AddSecretVersion(name, plain.value, nonce);
      if s.rotationPeriod != "" && s.nextRotationTime != "" {
        var next := advance(s.nextRotationTime, s.rotationPeriod);
        if next.Some? {
          RescheduledView(Held(), name, next.value);
          secrets := secrets[name := s.(nextRotationTime := next.value)];
        }
      }
    }
  }
}
