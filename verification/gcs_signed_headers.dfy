/** Signed headers: what is signed verifies, for which access ids, and when the id can be read back. */
module GcsSignedHeaders {
  import opened Basics
  import opened Text
  import opened Decimal
  import opened QueryString
  import opened GcsSigned
  import opened GcsSignedLaws

  // ---------- the parts of the header ----------

  lemma {:induction false} NoTrim(s: string)
    requires s != "" && !IsSpace(s[|s| - 1])
    ensures TrimmedLength(s) == |s|
  {
  }

  lemma TrimOneSpace(s: string)
    requires s != "" && Trimmed(s)
    ensures TrimSpace(" " + s) == s
  {
    var t := " " + s;
    assert t[1..] == s;
    assert LeadingSpaces(s) == 0;
    assert LeadingSpaces(t) == 1;
    NoTrim(s);
  }

  lemma ThreeParts(a: string, b: string, c: string)
    requires ',' !in a && ',' !in b && ',' !in c
    ensures Split(a + "," + (b + "," + c), ",") == [a, b, c]
  {
    CleanChar(a, ',');
    CleanChar(b, ',');
    SplitCons(a, ",", b + "," + c);
    SplitCons(b, ",", c);
    ContainsChar(c, ',');
  }

  const CREDENTIAL_FIELD: string := "Credential="
  const HEADERS_FIELD: string := "SignedHeaders="
  const SIGNATURE_FIELD: string := "Signature="

  /** The fields of the Authorization header for a credential and a signature. */
  function HeaderFields(credential: string, signature: string): string {
    CREDENTIAL_FIELD + credential + ", " + HEADERS_FIELD + SIGNED_HEADERS + ", " + SIGNATURE_FIELD + signature
  }

  lemma FieldNames()
    ensures ALGORITHM + " Credential=" == ALGORITHM + " " + CREDENTIAL_FIELD
    ensures ", SignedHeaders=" == ", " + HEADERS_FIELD && ", Signature=" == ", " + SIGNATURE_FIELD
  {
  }

  lemma AuthorizationText(env: Env, fmt: Formats, verb: string, host: string, path: string, id: string, secret: string, now: Instant, q: Query)
    ensures var d, t := fmt.datestamp(now), fmt.stamp(now);
            var signature := Signature(env, secret, d, HeaderText(env, fmt, verb, host, path, q, t, Scope(d), SIGNED_HEADERS));
            SignHeader(env, fmt, verb, host, path, id, secret, now, q) == (ALGORITHM + " " + HeaderFields(id + "/" + Scope(d), signature), t)
  {
    var d, t := fmt.datestamp(now), fmt.stamp(now);
    var signature := Signature(env, secret, d, HeaderText(env, fmt, verb, host, path, q, t, Scope(d), SIGNED_HEADERS));
    FieldNames();
    JoinsUp(ALGORITHM + " ", CREDENTIAL_FIELD, id, "/", Scope(d), ", " + HEADERS_FIELD, SIGNED_HEADERS, ", " + SIGNATURE_FIELD, signature);
    JoinsDown(CREDENTIAL_FIELD, id + "/" + Scope(d), ", ", HEADERS_FIELD, SIGNED_HEADERS, SIGNATURE_FIELD, signature);
  }

  lemma JoinsUp(a: string, b: string, c: string, d: string, e: string, f: string, g: string, h: string, i: string)
    ensures a + b + c + d + e + f + g + h + i == a + (b + (c + d + e) + f + g + h + i)
  {
  }

  lemma JoinsDown(a: string, b: string, sep: string, c: string, d: string, e: string, f: string)
    ensures a + b + (sep + c) + d + (sep + e) + f == a + b + sep + c + d + sep + e + f
  {
  }

  lemma FieldsText(a: string, b: string, c: string, d: string, e: string, f: string)
    ensures a + b + ", " + c + d + ", " + e + f == (a + b) + "," + ((" " + (c + d)) + "," + (" " + (e + f)))
  {
    assert ", " == "," + " ";
  }

  lemma HeaderFieldsSplit(credential: string, signature: string)
    requires ',' !in credential && ',' !in signature
    ensures Split(HeaderFields(credential, signature), ",") ==
            [CREDENTIAL_FIELD + credential, " " + (HEADERS_FIELD + SIGNED_HEADERS), " " + (SIGNATURE_FIELD + signature)]
  {
    var a, b, c := CREDENTIAL_FIELD + credential, " " + (HEADERS_FIELD + SIGNED_HEADERS), " " + (SIGNATURE_FIELD + signature);
    FieldsText(CREDENTIAL_FIELD, credential, HEADERS_FIELD, SIGNED_HEADERS, SIGNATURE_FIELD, signature);
    assert ',' !in b;
    ThreeParts(a, b, c);
  }

  lemma FieldsDiffer(s: string)
    ensures !(CREDENTIAL_FIELD <= HEADERS_FIELD + s) && !(CREDENTIAL_FIELD <= SIGNATURE_FIELD + s)
    ensures !(HEADERS_FIELD <= SIGNATURE_FIELD + s)
  {
    assert CREDENTIAL_FIELD[0] == 'C' && HEADERS_FIELD[0] == 'S' && SIGNATURE_FIELD[0] == 'S';
    assert HEADERS_FIELD[4] == 'e' && (SIGNATURE_FIELD + s)[4] == 'a';
  }

  lemma AddCredential(env: Env, a: Authorization, credential: string)
    requires credential != "" && !IsSpace(credential[|credential| - 1])
    ensures AddField(env, a, CREDENTIAL_FIELD + credential) == a.(credential := credential)
  {
    TrimSpaceId(CREDENTIAL_FIELD + credential);
  }

  lemma AddHeaders(env: Env, a: Authorization)
    requires EnvOk(env)
    ensures AddField(env, a, " " + (HEADERS_FIELD + SIGNED_HEADERS)) == a.(signedHeaders := SIGNED_HEADERS)
  {
    TrimOneSpace(HEADERS_FIELD + SIGNED_HEADERS);
    FieldsDiffer(SIGNED_HEADERS);
    LoweredStays(env, SIGNED_HEADERS);
  }

  lemma AddSignature(env: Env, a: Authorization, signature: string)
    requires signature != "" && !IsSpace(signature[|signature| - 1]) && env.lower(signature) == signature
    ensures AddField(env, a, " " + (SIGNATURE_FIELD + signature)) == a.(signature := signature)
  {
    TrimOneSpace(SIGNATURE_FIELD + signature);
    FieldsDiffer(signature);
  }

  predicate Endable(s: string) {
    s != "" && !IsSpace(s[|s| - 1])
  }

  lemma HeaderIsTrimmed(credential: string, signature: string)
    requires Endable(signature)
    ensures TrimSpace(HeaderFields(credential, signature)) == HeaderFields(credential, signature)
    ensures TrimSpace(ALGORITHM + " " + HeaderFields(credential, signature)) == ALGORITHM + " " + HeaderFields(credential, signature)
  {
    var f := HeaderFields(credential, signature);
    assert f[0] == 'C' && f[|f| - 1] == signature[|signature| - 1];
    TrimSpaceId(f);
    var g := ALGORITHM + " " + f;
    assert g[0] == 'G' && g[|g| - 1] == f[|f| - 1];
    TrimSpaceId(g);
  }

  lemma AddCons(env: Env, a: Authorization, x: string, rest: seq<string>)
    ensures AddFields(env, a, [x] + rest) == AddFields(env, AddField(env, a, x), rest)
  {
    assert ([x] + rest)[1..] == rest;
  }

  lemma AddThree(env: Env, a: Authorization, x: string, y: string, z: string)
    ensures AddFields(env, a, [x, y, z]) == AddField(env, AddField(env, AddField(env, a, x), y), z)
  {
    assert [x, y, z] == [x] + [y, z] && [y, z] == [y] + [z] && [z] == [z] + [];
    AddCons(env, a, x, [y, z]);
    AddCons(env, AddField(env, a, x), y, [z]);
    AddCons(env, AddField(env, AddField(env, a, x), y), z, []);
  }

  /** Reading the header gives the credential, the signed header names and the signature back. */
  lemma AuthorizationReadsBack(env: Env, credential: string, signature: string)
    requires EnvOk(env) && Endable(credential) && ',' !in credential
    requires Endable(signature) && ',' !in signature && env.lower(signature) == signature
    ensures ReadAuthorization(env, ALGORITHM + " " + HeaderFields(credential, signature)) == Some(Authorization(credential, SIGNED_HEADERS, signature))
  {
    HeaderIsTrimmed(credential, signature);
    var f := HeaderFields(credential, signature);
    assert TrimPrefix(ALGORITHM + " " + f, ALGORITHM + " ") == f;
    HeaderFieldsSplit(credential, signature);
    var a := Authorization("", "", "");
    AddThree(env, a, CREDENTIAL_FIELD + credential, " " + (HEADERS_FIELD + SIGNED_HEADERS), " " + (SIGNATURE_FIELD + signature));
    AddCredential(env, a, credential);
    AddHeaders(env, a.(credential := credential));
    AddSignature(env, a.(credential := credential, signedHeaders := SIGNED_HEADERS), signature);
  }

  // ---------- sign, then verify ----------

  predicate InWindow(active: Instant, later: Instant) {
    active - MINUTES_15 <= later <= active + MINUTES_15
  }

  lemma GoodIdVerifies(env: Env, fmt: Formats, verb: string, host: string, path: string, id: string, secret: string, now: Instant, q: Query, later: Instant, signature: string)
    requires EnvOk(env) && FormatsOk(fmt, now) && '/' !in id && signature != ""
    requires var d, t := fmt.datestamp(now), fmt.stamp(now);
             signature == Signature(env, secret, d, HeaderText(env, fmt, verb, host, path, q, t, Scope(d), SIGNED_HEADERS))
    ensures var d, t := fmt.datestamp(now), fmt.stamp(now);
            VerifyFields(env, fmt, verb, host, path, Authorization(id + "/" + Scope(d), SIGNED_HEADERS, signature), t, secret, later, q) == None <==>
              InWindow(now - now % SECOND, later)
  {
    var d := fmt.datestamp(now);
    CutAt(id, '/', Scope(d));
    ScopeSplits(d);
  }

  lemma BadIdFails(env: Env, fmt: Formats, verb: string, host: string, path: string, id: string, secret: string, now: Instant, q: Query, later: Instant, signature: string)
    requires FormatsOk(fmt, now) && '/' in id
    ensures VerifyFields(env, fmt, verb, host, path, Authorization(id + "/" + Scope(fmt.datestamp(now)), SIGNED_HEADERS, signature), fmt.stamp(now), secret, later, q) != None
  {
    var d := fmt.datestamp(now);
    var credential := id + "/" + Scope(d);
    var head, tail := FirstCut(id, '/');
    assert credential == head + ['/'] + (tail + "/" + Scope(d));
    CutAt(head, '/', tail + "/" + Scope(d));
    SplitConcat(tail, '/', Scope(d));
    ScopeSplits(d);
  }

  /** What signed headers read back as: the credential names the access id and the day, the date is the second
      they were signed in, and the signature is that of the request and that date under the secret. */
  lemma SignedHeaderReadsBack(env: Env, fmt: Formats, verb: string, host: string, path: string, id: string, secret: string, now: Instant, q: Query)
    requires EnvOk(env) && FormatsOk(fmt, now) && ',' !in id
    ensures var (authorization, date) := SignHeader(env, fmt, verb, host, path, id, secret, now, q);
            var d := fmt.datestamp(now);
            var text := HeaderText(env, fmt, verb, host, path, q, date, Scope(d), SIGNED_HEADERS);
            && ReadAuthorization(env, authorization) == Some(Authorization(id + "/" + Scope(d), SIGNED_HEADERS, Signature(env, secret, d, text)))
            && fmt.parse(date) == Some(now - now % SECOND)
  {
    var d, t := fmt.datestamp(now), fmt.stamp(now);
    var text := HeaderText(env, fmt, verb, host, path, q, t, Scope(d), SIGNED_HEADERS);
    var signature := Signature(env, secret, d, text);
    SignatureShape(env, secret, d, text);
    AuthorizationText(env, fmt, verb, host, path, id, secret, now, q);
    CredentialShape(id, d);
    SignatureEnds(env, secret, d, text);
    AuthorizationReadsBack(env, id + "/" + Scope(d), signature);
  }

  /** For every access id without a comma, the signed headers are accepted exactly when the id has no slash
      either and the time is within 15 minutes of the second they were signed in. */
  lemma HeaderVerifies(env: Env, fmt: Formats, verb: string, host: string, path: string, id: string, secret: string, now: Instant, q: Query, later: Instant)
    requires EnvOk(env) && FormatsOk(fmt, now) && ',' !in id
    ensures var (authorization, date) := SignHeader(env, fmt, verb, host, path, id, secret, now, q);
            VerifyHeader(env, fmt, verb, host, path, authorization, date, secret, later, q) == None <==>
              '/' !in id && InWindow(now - now % SECOND, later)
  {
    SignedHeaderReadsBack(env, fmt, verb, host, path, id, secret, now, q);
    var d, t := fmt.datestamp(now), fmt.stamp(now);
    var text := HeaderText(env, fmt, verb, host, path, q, t, Scope(d), SIGNED_HEADERS);
    var signature := Signature(env, secret, d, text);
    SignatureShape(env, secret, d, text);
    if '/' in id {
      BadIdFails(env, fmt, verb, host, path, id, secret, now, q, later, signature);
    } else {
      GoodIdVerifies(env, fmt, verb, host, path, id, secret, now, q, later, signature);
    }
  }

  lemma SignatureEnds(env: Env, secret: string, d: string, text: string)
    requires EnvOk(env)
    ensures Endable(Signature(env, secret, d, text))
  {
    HexIsLowered(env.hmac(DeriveSigningKey(env, secret, d), text));
  }

  lemma CredentialShape(id: string, d: string)
    requires ',' !in id && AllDigits(d)
    ensures Endable(id + "/" + Scope(d)) && ',' !in id + "/" + Scope(d)
  {
    DigitsFree(d, ',');
    var s := id + "/" + Scope(d);
    assert s[|s| - 1] == 't';
  }

  // ---------- the access id ----------

  lemma CredentialIsFirst(rest: string)
    ensures Index(ALGORITHM + " " + (CREDENTIAL_FIELD + rest), CREDENTIAL_FIELD) == 18
  {
    var s := ALGORITHM + " " + (CREDENTIAL_FIELD + rest);
    assert |ALGORITHM + " "| == 18;
    assert s[18..18 + |CREDENTIAL_FIELD|] == CREDENTIAL_FIELD;
    forall j | 0 <= j < 18 ensures !At(s, j, CREDENTIAL_FIELD) {
      assert s[j] == (ALGORITHM + " ")[j] && s[10] == '-' && CREDENTIAL_FIELD[0] == 'C' && CREDENTIAL_FIELD[1] == 'r';
      if j + |CREDENTIAL_FIELD| <= |s| {
        assert s[j..j + |CREDENTIAL_FIELD|][0] == s[j] && s[j..j + |CREDENTIAL_FIELD|][1] == s[j + 1];
      }
    }
    IndexIs(s, CREDENTIAL_FIELD, 18);
  }

  lemma FirstOf(a: string, c: char, b: string)
    ensures var i := Index(a + [c] + b, [c]);
            if c in a then 0 <= i < |a| && a[i] == c else i == |a|
  {
    var s := a + [c] + b;
    IndexFirst(s, [c]);
    if c in a {
      var j :| 0 <= j < |a| && a[j] == c;
      AtChar(s, j, c);
      AtChar(s, Index(s, [c]), c);
    } else {
      CutAt(a, c, b);
    }
  }

  /** Cutting a credential text at its first slash, or failing that its first comma, gives the id exactly
      when the id is not empty and has no slash. */
  lemma IdCut(id: string, scope: string, rest: string)
    requires ',' !in scope
    ensures var s := id + "/" + scope + "," + rest;
            var slash, comma := Index(s, "/"), Index(s, ",");
            (if slash > 0 then s[..slash] else if comma > 0 then s[..comma] else s) == id <==> id != "" && '/' !in id
  {
    var s := id + "/" + scope + "," + rest;
    assert s == id + ['/'] + (scope + "," + rest);
    FirstOf(id, '/', scope + "," + rest);
    var slash, comma := Index(s, "/"), Index(s, ",");
    var credential := id + "/" + scope;
    assert s == credential + [','] + rest;
    FirstOf(credential, ',', rest);
    if slash > 0 {
      assert |s[..slash]| == slash;
      if '/' !in id { assert s[..slash] == id; }
    } else {
      assert s[0] == '/';
      if ',' in id {
        assert ',' in credential;
        assert comma != |id|;
      } else {
        assert ',' !in credential;
      }
    }
  }

  lemma Regroup3(a: string, b: string, c: string, d: string)
    ensures a + b + c + d == a + (b + c + d)
  {
  }

  lemma IdOfTail(id: string, scope: string, rest: string, tail: string)
    requires ',' !in scope && tail == id + "/" + scope + "," + rest
    requires var header := ALGORITHM + " " + (CREDENTIAL_FIELD + tail); TrimSpace(header) == header
    ensures AccessIdOf(ALGORITHM + " " + (CREDENTIAL_FIELD + tail)) == id <==> id != "" && '/' !in id
  {
    CredentialIsFirst(tail);
    AfterCredential(tail);
    IdCut(id, scope, rest);
  }

  lemma IdOfFields(id: string, scope: string, signature: string)
    requires ',' !in scope && Endable(signature)
    ensures AccessIdOf(ALGORITHM + " " + HeaderFields(id + "/" + scope, signature)) == id <==> id != "" && '/' !in id
  {
    var credential := id + "/" + scope;
    var rest := (" " + (HEADERS_FIELD + SIGNED_HEADERS)) + "," + (" " + (SIGNATURE_FIELD + signature));
    HeaderIsTrimmed(credential, signature);
    FieldsText(CREDENTIAL_FIELD, credential, HEADERS_FIELD, SIGNED_HEADERS, SIGNATURE_FIELD, signature);
    Regroup3(CREDENTIAL_FIELD, credential, ",", rest);
    IdOfTail(id, scope, rest, credential + "," + rest);
  }

  lemma AfterCredential(tail: string)
    ensures (ALGORITHM + " " + (CREDENTIAL_FIELD + tail))[18 + |CREDENTIAL_FIELD|..] == tail
  {
    assert |ALGORITHM + " "| == 18;
  }

  /** GOOG4AccessID gives back the id a header was signed for exactly when it is not empty and has no slash. */
  lemma AccessIdReadsBack(env: Env, fmt: Formats, verb: string, host: string, path: string, id: string, secret: string, now: Instant, q: Query)
    requires EnvOk(env) && FormatsOk(fmt, now)
    ensures AccessIdOf(SignHeader(env, fmt, verb, host, path, id, secret, now, q).0) == id <==> id != "" && '/' !in id
  {
    var d, t := fmt.datestamp(now), fmt.stamp(now);
    var text := HeaderText(env, fmt, verb, host, path, q, t, Scope(d), SIGNED_HEADERS);
    AuthorizationText(env, fmt, verb, host, path, id, secret, now, q);
    SignatureEnds(env, secret, d, text);
    DigitsFree(d, ',');
    IdOfFields(id, Scope(d), Signature(env, secret, d, text));
  }
}
