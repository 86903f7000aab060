/** What is minted verifies, and when. */
module GcsSignedLaws {
  import opened Basics
  import opened Text
  import opened Ordering
  import opened Decimal
  import opened Calendar
  import opened QueryString
  import opened Timestamps
  import opened GcsSigned

  // ---------- what is assumed of the standard library ----------

  predicate Ascii(s: string) {
    forall i :: 0 <= i < |s| ==> s[i] as int < 128
  }

  function AsciiLower(s: string): (r: string)
    ensures |r| == |s| && forall i :: 0 <= i < |r| ==> r[i] == if 'A' <= s[i] <= 'Z' then s[i] - 'A' + 'a' else s[i]
  {
    seq(|s|, i requires 0 <= i < |s| => if 'A' <= s[i] <= 'Z' then s[i] - 'A' + 'a' else s[i])
  }

  /** Case mapping is the usual one on ASCII text, folding is reflexive and a MAC has 32 bytes. Nothing is
      assumed of the hash, and nothing else of the MAC. */
  ghost predicate EnvOk(env: Env) {
    && (forall s :: Ascii(s) ==> env.lower(s) == AsciiLower(s))
    && (forall s :: env.equalFold(s, s))
    && (forall key, data :: |env.hmac(key, data)| == 32)
  }

  /** Times read back to the second; printing a query depends on its values up to order only, and parsing
      the text gives them back. */
  ghost predicate FormatsOk(fmt: Formats, now: Instant) {
    && fmt.parse(fmt.stamp(now)) == Some(now - now % SECOND)
    && fmt.stamp(now) != "" && fmt.datestamp(now) != "" && AllDigits(fmt.datestamp(now)) && IsBytes(fmt.stamp(now))
    && (forall a, b :: Normal(a) == Normal(b) ==> fmt.canonical(a) == fmt.canonical(b))
    && forall q :: QueryBytes(q) ==> ParseQuery(fmt.canonical(q)) == Normal(q)
  }

  lemma StoreFormatsOk(now: Instant)
    requires 0 <= DateOf(DayOf(now)).year <= 9999
    ensures FormatsOk(FORMATS, now)
  {
    StampReadsBack(now);
    StampShape(now);
    forall a, b | Normal(a) == Normal(b) ensures Canonical(a) == Canonical(b) {
      CanonicalNormal(a);
      CanonicalNormal(b);
    }
    forall q | QueryBytes(q) ensures ParseQuery(Canonical(q)) == Normal(q) { ParseCanonical(q); }
  }

  predicate Lowered(s: string) {
    forall i :: 0 <= i < |s| ==> s[i] as int < 128 && !('A' <= s[i] <= 'Z')
  }

  lemma LoweredStays(env: Env, s: string)
    requires EnvOk(env) && Lowered(s)
    ensures env.lower(s) == s
  {
    assert AsciiLower(s) == s;
  }

  lemma {:induction false} HexIsLowered(bytes: string)
    ensures |HexEncode(bytes)| == 2 * |bytes| && forall i :: 0 <= i < |HexEncode(bytes)| ==> '0' <= HexEncode(bytes)[i] <= '9' || 'a' <= HexEncode(bytes)[i] <= 'f'
  {
    if bytes != "" { HexIsLowered(bytes[1..]); }
  }

  lemma SignatureShape(env: Env, secret: string, datestamp: string, text: string)
    requires EnvOk(env)
    ensures var s := Signature(env, secret, datestamp, text);
            |s| == 64 && Lowered(s) && env.lower(s) == s && (forall c :: c in s ==> c != ',' && c != ' ' && c != '/')
  {
    HexIsLowered(env.hmac(DeriveSigningKey(env, secret, datestamp), text));
    LoweredStays(env, Signature(env, secret, datestamp, text));
  }

  // ---------- credentials ----------

  lemma DigitsFree(s: string, c: char)
    requires AllDigits(s) && !IsDigit(c)
    ensures c !in s
  {
  }

  lemma FourParts(a: string, b: string, c: string, d: string)
    requires '/' !in a && '/' !in b && '/' !in c && '/' !in d
    ensures Split(a + "/" + (b + "/" + (c + "/" + d)), "/") == [a, b, c, d]
  {
    CleanChar(a, '/');
    CleanChar(b, '/');
    CleanChar(c, '/');
    SplitCons(a, "/", b + "/" + (c + "/" + d));
    SplitCons(b, "/", c + "/" + d);
    SplitCons(c, "/", d);
    ContainsChar(d, '/');
  }

  lemma ScopeText(d: string)
    ensures Scope(d) == d + "/" + ("auto" + "/" + ("storage" + "/" + "goog4_request"))
  {
  }

  lemma ScopeSplits(d: string)
    requires AllDigits(d)
    ensures Split(Scope(d), "/") == [d, "auto", "storage", "goog4_request"]
  {
    DigitsFree(d, '/');
    ScopeText(d);
    FourParts(d, "auto", "storage", "goog4_request");
  }

  lemma ScopeReadsBack(d: string)
    requires AllDigits(d)
    ensures ReadScope(ACCESS_ID + "/" + Scope(d)) == Ok(Scope(d)) && Split(Scope(d), "/")[0] == d
  {
    CutAt(ACCESS_ID, '/', Scope(d));
    ScopeSplits(d);
  }

  lemma AtoiReadsBack(n: nat)
    requires n < TWO63
    ensures Atoi(Itoa(n)) == Some(n)
  {
    ValueOfItoa(n);
    ScanNumeral(Itoa(n), "");
    assert Itoa(n) + "" == Itoa(n);
  }

  // ---------- signed URLs ----------

  predicate GoogKey(k: string) {
    k == "X-Goog-Algorithm" || k == "X-Goog-Credential" || k == "X-Goog-Date" || k == "X-Goog-Expires" || k == "X-Goog-SignedHeaders"
  }

  lemma GoogKeysStay(env: Env, k: string)
    requires EnvOk(env)
    ensures GoogKey(k) ==> !SignatureKey(env, k)
    ensures SignatureKey(env, "X-Goog-Signature")
  {
    assert AsciiLower("X-Goog-Signature") == "x-goog-signature";
    if GoogKey(k) {
      assert Ascii(k);
      var l := AsciiLower(k);
      if |k| == 16 { assert l[7] == 'a'; }
    }
  }

  /** The extra query carries no signature of its own. */
  predicate NoSignature(env: Env, q: Query) {
    forall k :: k in q && q[k] != [] ==> !SignatureKey(env, k)
  }

  lemma StampedKeys(fmt: Formats, q: Query, expires: int, now: Instant, k: string)
    requires expires > 0
    ensures var s := Stamped(fmt, q, expires, now);
            && (k in s <==> GoogKey(k) || (k in q && q[k] != []))
            && (k in s ==> s[k] != [])
            && (k in s && !GoogKey(k) ==> s[k] == q[k])
  {
  }

  lemma NormalTwice(q: Query, k: string)
    requires k in q && q[k] != []
    ensures k in Normal(q) && Normal(q)[k] != [] && Sort(Normal(q)[k]) == Sort(q[k])
  {
    SortForgetsOrder(Sort(q[k]), q[k]);
    assert |Sort(q[k])| == |q[k]| by { assert |multiset(Sort(q[k]))| == |multiset(q[k])|; }
  }

  lemma UnsignedAt(env: Env, base: Query, signature: string, k: string)
    requires SignatureKey(env, "X-Goog-Signature") && (k in base && base[k] != [] ==> !SignatureKey(env, k))
    ensures var u := Normal(Unsigned(env, Normal(base["X-Goog-Signature" := [signature]])));
            && (k in u <==> k in Normal(base))
            && (k in u ==> u[k] == Normal(base)[k])
  {
    var q := base["X-Goog-Signature" := [signature]];
    if k in base && base[k] != [] {
      NormalTwice(base, k);
      assert k != "X-Goog-Signature" && q[k] == base[k];
      NormalTwice(q, k);
    }
  }

  /** Taking the signature out again leaves what was signed. */
  lemma UnsignedIsStamped(env: Env, fmt: Formats, req: Request, now: Instant)
    requires EnvOk(env) && NoSignature(env, req.query)
    ensures Normal(Unsigned(env, Normal(SignedQuery(env, fmt, req, now)))) == Normal(Stamped(fmt, req.query, Lifetime(req.expires), now))
  {
    var a := Normal(Unsigned(env, Normal(SignedQuery(env, fmt, req, now))));
    var base := Stamped(fmt, req.query, Lifetime(req.expires), now);
    var b := Normal(base);
    GoogKeysStay(env, "X-Goog-Signature");
    var signature := SignedQuery(env, fmt, req, now)["X-Goog-Signature"][0];
    assert SignedQuery(env, fmt, req, now) == base["X-Goog-Signature" := [signature]];
    forall k ensures (k in a <==> k in b) && (k in a ==> a[k] == b[k]) {
      GoogKeysStay(env, k);
      StampedKeys(fmt, req.query, Lifetime(req.expires), now, k);
      UnsignedAt(env, base, signature, k);
    }
    SameMap(a, b);
  }

  lemma SingleValue(q: Query, k: string, v: string)
    requires k in q && q[k] == [v]
    ensures Get(Normal(q), k) == v
  {
    assert [v][1..] == [];
    assert Sort([v]) == [v];
  }

  /** `q` has the one value `v` for `k`. */
  predicate HasOne(q: Query, k: string, v: string) {
    k in q && q[k] == [v]
  }

  lemma SixEntries(q0: Query, a: string, x: string, b: string, y: string, c: string, z: string, d: string, u: string, e: string, v: string, f: string, w: string)
    requires a != b && a != c && a != d && a != e && a != f && b != c && b != d && b != e && b != f
    requires c != d && c != e && c != f && d != e && d != f && e != f
    ensures var q := q0[a := [x]][b := [y]][c := [z]][d := [u]][e := [v]][f := [w]];
            HasOne(q, a, x) && HasOne(q, b, y) && HasOne(q, c, z) && HasOne(q, d, u) && HasOne(q, e, v) && HasOne(q, f, w)
  {
  }

  lemma SixValues(q: Query, a: string, x: string, b: string, y: string, c: string, z: string, d: string, u: string, e: string, v: string, f: string, w: string)
    requires HasOne(q, a, x) && HasOne(q, b, y) && HasOne(q, c, z) && HasOne(q, d, u) && HasOne(q, e, v) && HasOne(q, f, w)
    ensures var n := Normal(q);
            Get(n, a) == x && Get(n, b) == y && Get(n, c) == z && Get(n, d) == u && Get(n, e) == v && Get(n, f) == w
  {
    SingleValue(q, a, x);
    SingleValue(q, b, y);
    SingleValue(q, c, z);
    SingleValue(q, d, u);
    SingleValue(q, e, v);
    SingleValue(q, f, w);
  }

  lemma StampedValues(fmt: Formats, extra: Query, expires: int, now: Instant, signature: string)
    requires expires > 0
    ensures var q := Normal(Stamped(fmt, extra, expires, now)["X-Goog-Signature" := [signature]]);
            && Get(q, "X-Goog-Algorithm") == ALGORITHM && Get(q, "X-Goog-Credential") == ACCESS_ID + "/" + Scope(fmt.datestamp(now))
            && Get(q, "X-Goog-Date") == fmt.stamp(now) && Get(q, "X-Goog-Expires") == Itoa(expires)
            && Get(q, "X-Goog-SignedHeaders") == "host" && Get(q, "X-Goog-Signature") == signature
  {
    assert "X-Goog-Algorithm"[7] != "X-Goog-Signature"[7];
    var credential := ACCESS_ID + "/" + Scope(fmt.datestamp(now));
    SixEntries(Copied(extra, _ => true), "X-Goog-Algorithm", ALGORITHM, "X-Goog-Credential", credential, "X-Goog-Date", fmt.stamp(now),
               "X-Goog-Expires", Itoa(expires), "X-Goog-SignedHeaders", "host", "X-Goog-Signature", signature);
    SixValues(Stamped(fmt, extra, expires, now)["X-Goog-Signature" := [signature]], "X-Goog-Algorithm", ALGORITHM, "X-Goog-Credential", credential,
              "X-Goog-Date", fmt.stamp(now), "X-Goog-Expires", Itoa(expires), "X-Goog-SignedHeaders", "host", "X-Goog-Signature", signature);
  }

  lemma ClaimsOf(env: Env, q: Query, c: Claims)
    requires EnvOk(env) && c.algorithm != "" && c.credential != "" && c.date != "" && c.expires != "" && c.signature != ""
    requires c.signedHeaders == "host" && env.lower(c.signature) == c.signature
    requires Get(q, "X-Goog-Algorithm") == c.algorithm && Get(q, "X-Goog-Credential") == c.credential && Get(q, "X-Goog-Date") == c.date
    requires Get(q, "X-Goog-Expires") == c.expires && Get(q, "X-Goog-SignedHeaders") == "host" && Get(q, "X-Goog-Signature") == c.signature
    ensures ReadClaims(env, q) == c
  {
    LoweredStays(env, "host");
  }

  lemma HostIsSigned()
    ensures Contains("host", "host")
  {
  }

  lemma TimeWindow(env: Env, fmt: Formats, c: Claims, now: Instant, expires: nat, later: Instant)
    requires EnvOk(env) && FormatsOk(fmt, now) && 0 < expires <= 604800
    requires c.algorithm == ALGORITHM && c.credential != "" && c.date == fmt.stamp(now) && c.expires == Itoa(expires)
    requires c.signedHeaders == "host" && c.signature != ""
    ensures var active := now - now % SECOND;
            CheckTime(env, fmt, c, later) == None <==> active - MINUTES_15 <= later <= active + expires * SECOND
  {
    HostIsSigned();
    AtoiReadsBack(expires);
  }

  /** A minted query, read back from its URL, is accepted exactly from 15 minutes before the second it was
      signed in until it expires. */
  lemma MintedVerifies(env: Env, fmt: Formats, req: Request, now: Instant, verb: string, later: Instant)
    requires EnvOk(env) && FormatsOk(fmt, now) && NoSignature(env, req.query)
    requires Mint(env, fmt, req, now).Ok? && env.upper(verb) == Verb(env, req.verb)
    ensures var active := now - now % SECOND;
            Verify(env, fmt, verb, req.host, req.path, Normal(Mint(env, fmt, req, now).value), later) == None <==>
              active - MINUTES_15 <= later <= active + Lifetime(req.expires) * SECOND
  {
    var d, expires := fmt.datestamp(now), Lifetime(req.expires);
    var base := Stamped(fmt, req.query, expires, now);
    var text := UrlText(env, fmt, Verb(env, req.verb), req.host, req.path, base, fmt.stamp(now), Scope(d));
    var signature := Signature(env, SECRET, d, text);
    SignatureShape(env, SECRET, d, text);
    StampedValues(fmt, req.query, expires, now, signature);
    var q := Normal(SignedQuery(env, fmt, req, now));
    var c := Claims(ALGORITHM, ACCESS_ID + "/" + Scope(d), fmt.stamp(now), Itoa(expires), "host", signature);
    ClaimsOf(env, q, c);
    TimeWindow(env, fmt, c, now, expires, later);
    ScopeReadsBack(d);
    UnsignedIsStamped(env, fmt, req, now);
    assert fmt.canonical(Unsigned(env, q)) == fmt.canonical(base);
    VerifyOf(env, fmt, verb, req.host, req.path, q, later, c, Scope(d), d, text);
  }

  /** When the signature covers the right text, only the time decides. */
  lemma VerifyOf(env: Env, fmt: Formats, verb: string, host: string, path: string, q: Query, later: Instant, c: Claims, scope: string, d: string, text: string)
    requires ReadClaims(env, q) == c && ReadScope(c.credential) == Ok(scope) && Split(scope, "/")[0] == d
    requires UrlText(env, fmt, env.upper(verb), host, path, Unsigned(env, q), c.date, scope) == text
    requires Signature(env, SECRET, d, text) == c.signature
    ensures Verify(env, fmt, verb, host, path, q, later) == CheckTime(env, fmt, c, later)
  {
  }

  // ---------- through the text of the URL ----------

  lemma BytesAppend(a: string, b: string)
    requires IsBytes(a) && IsBytes(b)
    ensures IsBytes(a + b)
  {
  }

  lemma CredentialBytes(d: string)
    requires AllDigits(d)
    ensures IsBytes(ACCESS_ID + "/" + Scope(d))
  {
    assert IsBytes(d) && IsBytes(ACCESS_ID + "/") && IsBytes("/auto/storage/goog4_request");
    BytesAppend(d, "/auto/storage/goog4_request");
    BytesAppend(ACCESS_ID + "/", Scope(d));
  }

  lemma SetBytes(q: Query, k: string, v: string)
    requires QueryBytes(q) && IsBytes(k) && IsBytes(v)
    ensures QueryBytes(q[k := [v]])
  {
  }

  lemma StampedBytes(fmt: Formats, extra: Query, expires: int, now: Instant)
    requires FormatsOk(fmt, now) && QueryBytes(extra) && expires > 0
    ensures QueryBytes(Stamped(fmt, extra, expires, now))
  {
    var d, t := fmt.datestamp(now), fmt.stamp(now);
    CredentialBytes(d);
    SetAllBytes(Copied(extra, _ => true), ACCESS_ID + "/" + Scope(d), t, Itoa(expires));
  }

  lemma SetFive(q: Query, a: string, x: string, b: string, y: string, c: string, z: string, d: string, u: string, e: string, v: string)
    requires QueryBytes(q) && IsBytes(a) && IsBytes(x) && IsBytes(b) && IsBytes(y) && IsBytes(c) && IsBytes(z)
    requires IsBytes(d) && IsBytes(u) && IsBytes(e) && IsBytes(v)
    ensures QueryBytes(q[a := [x]][b := [y]][c := [z]][d := [u]][e := [v]])
  {
    SetBytes(q, a, x);
    SetBytes(q[a := [x]], b, y);
    SetBytes(q[a := [x]][b := [y]], c, z);
    SetBytes(q[a := [x]][b := [y]][c := [z]], d, u);
    SetBytes(q[a := [x]][b := [y]][c := [z]][d := [u]], e, v);
  }

  lemma ShortKeyBytes()
    ensures IsBytes("X-Goog-Date") && IsBytes("X-Goog-Expires") && IsBytes("X-Goog-Algorithm")
  {
  }

  lemma LongKeyBytes()
    ensures IsBytes("X-Goog-Credential") && IsBytes("X-Goog-SignedHeaders") && IsBytes("X-Goog-Signature")
  {
  }

  lemma WordBytes()
    ensures IsBytes(ALGORITHM) && IsBytes("host")
  {
  }

  lemma SetAllBytes(q0: Query, credential: string, t: string, expires: string)
    requires QueryBytes(q0) && IsBytes(credential) && IsBytes(t) && IsBytes(expires)
    ensures QueryBytes(q0["X-Goog-Algorithm" := [ALGORITHM]]["X-Goog-Credential" := [credential]]["X-Goog-Date" := [t]]["X-Goog-Expires" := [expires]]
                         ["X-Goog-SignedHeaders" := ["host"]])
  {
    ShortKeyBytes();
    LongKeyBytes();
    WordBytes();
    SetFive(q0, "X-Goog-Algorithm", ALGORITHM, "X-Goog-Credential", credential, "X-Goog-Date", t, "X-Goog-Expires", expires, "X-Goog-SignedHeaders", "host");
  }

  lemma SignedBytes(env: Env, fmt: Formats, req: Request, now: Instant)
    requires EnvOk(env) && FormatsOk(fmt, now) && QueryBytes(req.query)
    ensures QueryBytes(SignedQuery(env, fmt, req, now))
    ensures QueryBytes(Stamped(fmt, req.query, Lifetime(req.expires), now))
  {
    var base := Stamped(fmt, req.query, Lifetime(req.expires), now);
    var d := fmt.datestamp(now);
    StampedBytes(fmt, req.query, Lifetime(req.expires), now);
    var text := UrlText(env, fmt, Verb(env, req.verb), req.host, req.path, base, fmt.stamp(now), Scope(d));
    SignatureShape(env, SECRET, d, text);
    var signature := Signature(env, SECRET, d, text);
    assert IsBytes(signature);
    ShortKeyBytes();
    LongKeyBytes();
    SetBytes(base, "X-Goog-Signature", signature);
  }

  /** A minted URL, once its query has been parsed again, is accepted exactly from 15 minutes before the
      second it was signed in until it expires. */
  lemma MintedUrlVerifies(env: Env, fmt: Formats, req: Request, now: Instant, verb: string, later: Instant)
    requires EnvOk(env) && FormatsOk(fmt, now) && NoSignature(env, req.query) && QueryBytes(req.query)
    requires Mint(env, fmt, req, now).Ok? && env.upper(verb) == Verb(env, req.verb)
    ensures var text := fmt.canonical(Mint(env, fmt, req, now).value);
            var active := now - now % SECOND;
            Verify(env, fmt, verb, req.host, req.path, ParseQuery(text), later) == None <==>
              active - MINUTES_15 <= later <= active + Lifetime(req.expires) * SECOND
  {
    UrlParses(env, fmt, req, now);
    MintedVerifies(env, fmt, req, now, verb, later);
  }

  lemma UrlParses(env: Env, fmt: Formats, req: Request, now: Instant)
    requires EnvOk(env) && FormatsOk(fmt, now) && QueryBytes(req.query) && Mint(env, fmt, req, now).Ok?
    ensures var q := Mint(env, fmt, req, now).value; ParseQuery(fmt.canonical(q)) == Normal(q)
  {
    SignedBytes(env, fmt, req, now);
  }

  lemma UnsignedBytes(env: Env, q: Query)
    requires QueryBytes(q)
    ensures QueryBytes(Unsigned(env, Normal(q)))
  {
    forall k | k in Unsigned(env, Normal(q)) ensures IsBytes(k) && forall v :: v in Unsigned(env, Normal(q))[k] ==> IsBytes(v) {
      SortKeepsBytes(q, k);
    }
  }

  /** The verifier hashes the text that was signed exactly when the extra query had no signature key, in
      any spelling that lower-cases to one; otherwise a minted URL passes only if the two texts collide. */
  lemma SignedTextKept(env: Env, fmt: Formats, req: Request, now: Instant)
    requires EnvOk(env) && FormatsOk(fmt, now) && QueryBytes(req.query)
    ensures fmt.canonical(Unsigned(env, Normal(SignedQuery(env, fmt, req, now)))) == fmt.canonical(Stamped(fmt, req.query, Lifetime(req.expires), now)) <==>
            NoSignature(env, req.query)
  {
    var q := SignedQuery(env, fmt, req, now);
    var base := Stamped(fmt, req.query, Lifetime(req.expires), now);
    SignedBytes(env, fmt, req, now);
    UnsignedBytes(env, q);
    if NoSignature(env, req.query) {
      UnsignedIsStamped(env, fmt, req, now);
    } else {
      var k :| k in req.query && req.query[k] != [] && SignatureKey(env, k);
      StampedKeys(fmt, req.query, Lifetime(req.expires), now, k);
      assert k in Normal(base);
      assert k !in Normal(Unsigned(env, Normal(q)));
    }
  }
}
