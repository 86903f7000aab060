/** What a signature binds: which one passes, and which requests it can pass for. Everything a verifier accepts is
    what was signed. */
module GcsBinding {
  import opened Basics
  import opened Text
  import opened QueryString
  import opened GcsSigned
  import opened GcsSignedLaws

  // ---------- what is assumed ----------

  /** The hash and the MAC tell these texts and keys apart, and a MAC is a string of bytes. No hash tells all texts
      apart, so the laws below name the few they are about. */
  ghost predicate Distinguishes(env: Env, texts: set<string>, keys: set<string>) {
    && (forall x, y :: x in texts && y in texts && env.sha256Hex(x) == env.sha256Hex(y) ==> x == y)
    && (forall k, x, y :: k in keys && x in texts && y in texts && env.hmac(k, x) == env.hmac(k, y) ==> x == y)
    && (forall k, l, x :: k in keys && l in keys && x in texts && env.hmac(k, x) == env.hmac(l, x) ==> k == l)
    && (forall k, x :: IsBytes(env.hmac(k, x)))
  }

  lemma HexDigit(a: nat, b: nat)
    requires a < 256 && b < 256 && LowerHex(a / 16) == LowerHex(b / 16) && LowerHex(a % 16) == LowerHex(b % 16)
    ensures a == b
  {
    HexOne(a / 16, b / 16);
    HexOne(a % 16, b % 16);
  }

  lemma HexOne(a: nat, b: nat)
    requires a < 16 && b < 16 && LowerHex(a) == LowerHex(b)
    ensures a == b
  {
  }

  lemma {:induction false} HexInjective(a: string, b: string)
    requires IsBytes(a) && IsBytes(b) && HexEncode(a) == HexEncode(b)
    ensures a == b
  {
    if a == "" || b == "" {
      HexLength(a);
      HexLength(b);
    } else {
      HexFirst(a);
      HexFirst(b);
      assert a[0] in a && b[0] in b && (forall c :: c in a[1..] ==> c in a) && forall c :: c in b[1..] ==> c in b;
      HexDigit(a[0] as nat, b[0] as nat);
      HexInjective(a[1..], b[1..]);
      assert a == [a[0]] + a[1..] && b == [b[0]] + b[1..];
    }
  }

  lemma HexFirst(a: string)
    requires IsBytes(a) && a != ""
    ensures var x, n := HexEncode(a), a[0] as nat;
            n < 256 && |x| >= 2 && x[0] == LowerHex(n / 16) && x[1] == LowerHex(n % 16) && x[2..] == HexEncode(a[1..])
  {
    var n := a[0] as nat;
    assert a[0] in a && n % 256 == n;
    TwoFirst(LowerHex(n / 16), LowerHex(n % 16), HexEncode(a[1..]));
  }

  lemma TwoFirst(c: char, d: char, rest: string)
    ensures var s := [c, d] + rest; |s| >= 2 && s[0] == c && s[1] == d && s[2..] == rest
  {
  }

  lemma HexLength(a: string)
    ensures |HexEncode(a)| == 2 * |a|
  {
    HexIsLowered(a);
  }

  // ---------- lines ----------

  predicate OneLine(s: string) {
    '\n' !in s
  }

  ghost predicate Lines(parts: seq<string>) {
    |parts| >= 1 && forall i :: 0 <= i < |parts| ==> OneLine(parts[i])
  }

  /** Parts without line breaks can be read off the text they are joined to. */
  lemma LinesReadBack(a: seq<string>, b: seq<string>)
    requires Lines(a) && Lines(b) && Join(a, "\n") == Join(b, "\n")
    ensures a == b
  {
    forall i | 0 <= i < |a| ensures Clean(a[i], "\n") { CleanChar(a[i], '\n'); }
    forall i | 0 <= i < |b| ensures Clean(b[i], "\n") { CleanChar(b[i], '\n'); }
    SplitJoin(a, "\n");
    SplitJoin(b, "\n");
  }

  lemma StringToSignEnds(env: Env, timestamp: string, scope: string, r1: string, r2: string)
    requires StringToSign(env, timestamp, scope, r1) == StringToSign(env, timestamp, scope, r2)
    ensures env.sha256Hex(r1) == env.sha256Hex(r2)
  {
    var head := ALGORITHM + "\n" + (timestamp + "\n" + (scope + "\n"));
    StringToSignText(env, timestamp, scope, r1);
    StringToSignText(env, timestamp, scope, r2);
    assert (head + env.sha256Hex(r1))[|head|..] == env.sha256Hex(r1);
    assert (head + env.sha256Hex(r2))[|head|..] == env.sha256Hex(r2);
  }

  lemma StringToSignText(env: Env, timestamp: string, scope: string, r: string)
    ensures StringToSign(env, timestamp, scope, r) == ALGORITHM + "\n" + (timestamp + "\n" + (scope + "\n")) + env.sha256Hex(r)
  {
    var h := env.sha256Hex(r);
    assert [ALGORITHM, timestamp, scope, h] == [ALGORITHM] + [timestamp, scope, h];
    assert [timestamp, scope, h] == [timestamp] + [scope, h] && [scope, h] == [scope] + [h];
    JoinCons(ALGORITHM, [timestamp, scope, h], "\n");
    JoinCons(timestamp, [scope, h], "\n");
    JoinCons(scope, [h], "\n");
    assert ALGORITHM + "\n" + (timestamp + "\n" + (scope + "\n" + h)) == ALGORITHM + "\n" + (timestamp + "\n" + (scope + "\n")) + h;
  }

  /** A part that is itself joined lines can be joined line by line. */
  lemma JoinFlattens(before: seq<string>, lines: seq<string>, after: seq<string>)
    requires before != [] && lines != [] && after != []
    ensures Join(before + [Join(lines, "\n")] + after, "\n") == Join(before + lines + after, "\n")
  {
    JoinConcat(before + [Join(lines, "\n")], after, "\n");
    JoinConcat(before, [Join(lines, "\n")], "\n");
    JoinConcat(before + lines, after, "\n");
    JoinConcat(before, lines, "\n");
  }

  /** Two requests with the same signature under one secret, day, time and scope are the same text. */
  lemma SignatureBinds(env: Env, secret: string, d: string, timestamp: string, scope: string, r1: string, r2: string)
    requires Distinguishes(env, {r1, r2, StringToSign(env, timestamp, scope, r1), StringToSign(env, timestamp, scope, r2)}, {DeriveSigningKey(env, secret, d)})
    requires Signature(env, secret, d, StringToSign(env, timestamp, scope, r1)) == Signature(env, secret, d, StringToSign(env, timestamp, scope, r2))
    ensures r1 == r2
  {
    var key, t1, t2 := DeriveSigningKey(env, secret, d), StringToSign(env, timestamp, scope, r1), StringToSign(env, timestamp, scope, r2);
    HexInjective(env.hmac(key, t1), env.hmac(key, t2));
    assert t1 == t2;
    StringToSignEnds(env, timestamp, scope, r1, r2);
  }

  // ---------- signed URLs ----------

  /** The lines of the canonical request of a URL. */
  function UrlLines(env: Env, fmt: Formats, verb: string, host: string, path: string, q: Query): seq<string> {
    [verb, path, fmt.canonical(q), "host:" + env.lower(host), "", "host", "UNSIGNED-PAYLOAD"]
  }

  /** The parts of a request have no line breaks. */
  predicate PlainParts(env: Env, fmt: Formats, verb: string, host: string, path: string, q: Query) {
    OneLine(verb) && OneLine(path) && OneLine(fmt.canonical(q)) && OneLine(env.lower(host))
  }

  lemma UrlRequestLines(env: Env, fmt: Formats, verb: string, host: string, path: string, q: Query)
    ensures UrlRequest(env, fmt, verb, host, path, q) == Join(UrlLines(env, fmt, verb, host, path, q), "\n")
  {
    var headers := ["host:" + env.lower(host), ""];
    assert headers[1..] == [""];
    assert Join(headers, "\n") == "host:" + env.lower(host) + "\n";
    JoinFlattens([verb, path, fmt.canonical(q)], headers, ["host", "UNSIGNED-PAYLOAD"]);
    assert [verb, path, fmt.canonical(q)] + [Join(headers, "\n")] + ["host", "UNSIGNED-PAYLOAD"] ==
           [verb, path, fmt.canonical(q), Join(headers, "\n"), "host", "UNSIGNED-PAYLOAD"];
    assert [verb, path, fmt.canonical(q)] + headers + ["host", "UNSIGNED-PAYLOAD"] == UrlLines(env, fmt, verb, host, path, q);
  }

  lemma UrlRequestReadsBack(env: Env, fmt: Formats, v1: string, h1: string, p1: string, q1: Query, v2: string, h2: string, p2: string, q2: Query)
    requires PlainParts(env, fmt, v1, h1, p1, q1) && PlainParts(env, fmt, v2, h2, p2, q2)
    requires UrlRequest(env, fmt, v1, h1, p1, q1) == UrlRequest(env, fmt, v2, h2, p2, q2)
    ensures v1 == v2 && env.lower(h1) == env.lower(h2) && p1 == p2 && fmt.canonical(q1) == fmt.canonical(q2)
  {
    UrlRequestLines(env, fmt, v1, h1, p1, q1);
    UrlRequestLines(env, fmt, v2, h2, p2, q2);
    var a, b := UrlLines(env, fmt, v1, h1, p1, q1), UrlLines(env, fmt, v2, h2, p2, q2);
    assert Lines(a) && Lines(b);
    LinesReadBack(a, b);
    assert a[0] == b[0] && a[1] == b[1] && a[2] == b[2] && a[3] == b[3];
    assert a[3][5..] == env.lower(h1) && b[3][5..] == env.lower(h2);
  }

  /** What an accepted request has shown: the algorithm, a credential of the one known access id and a scope for
      storage, a host among the signed headers, a positive number of seconds, and a time inside them. */
  lemma AcceptedNeeds(env: Env, fmt: Formats, verb: string, host: string, path: string, q: Query, now: Instant)
    requires Verify(env, fmt, verb, host, path, q, now) == None
    ensures var c := ReadClaims(env, q);
            && env.equalFold(c.algorithm, ALGORITHM) && Contains(c.signedHeaders, "host") && c.signature != ""
            && Atoi(c.expires).Some? && Atoi(c.expires).value > 0 && fmt.parse(c.date).Some?
            && fmt.parse(c.date).value - 15 * 60 * SECOND <= now <= fmt.parse(c.date).value + Seconds(Atoi(c.expires).value)
            && exists scope ::
                 && c.credential == ACCESS_ID + "/" + scope && |Split(scope, "/")| == 4
                 && Split(scope, "/")[2] == "storage" && Split(scope, "/")[3] == "goog4_request"
  {
    var c := ReadClaims(env, q);
    var i := Index(c.credential, "/");
    IndexFirst(c.credential, "/");
    AtChar(c.credential, i, '/');
    assert c.credential == c.credential[..i] + [c.credential[i]] + c.credential[i + 1..];
  }

  lemma AcceptedIsSigned(env: Env, fmt: Formats, verb: string, host: string, path: string, q: Query, now: Instant)
    returns (scope: string, d: string)
    requires Verify(env, fmt, verb, host, path, q, now) == None
    ensures var c := ReadClaims(env, q);
            && ReadScope(c.credential) == Ok(scope) && Split(scope, "/")[0] == d
            && c.signature == Signature(env, SECRET, d, UrlText(env, fmt, env.upper(verb), host, path, Unsigned(env, q), c.date, scope))
  {
    scope := ReadScope(ReadClaims(env, q).credential).value;
    d := Split(scope, "/")[0];
  }

  /** At most one signature passes: of two that are accepted for one request, at any times, both lower-case to the
      same text. */
  lemma OneSignature(env: Env, fmt: Formats, verb: string, host: string, path: string, q: Query, s1: string, s2: string, now1: Instant, now2: Instant)
    requires EnvOk(env) && s1 != "" && s2 != ""
    requires Verify(env, fmt, verb, host, path, q["X-Goog-Signature" := [s1]], now1) == None
    requires Verify(env, fmt, verb, host, path, q["X-Goog-Signature" := [s2]], now2) == None
    ensures env.lower(s1) == env.lower(s2)
  {
    var q1, q2 := q["X-Goog-Signature" := [s1]], q["X-Goog-Signature" := [s2]];
    GoogKeysStay(env, "X-Goog-Signature");
    SameUnsigned(env, q, s1, s2);
    SameClaims(env, q, s1, s2);
    var scope1, d1 := AcceptedIsSigned(env, fmt, verb, host, path, q1, now1);
    var scope2, d2 := AcceptedIsSigned(env, fmt, verb, host, path, q2, now2);
  }

  lemma SameUnsigned(env: Env, q: Query, s1: string, s2: string)
    requires SignatureKey(env, "X-Goog-Signature")
    ensures Unsigned(env, q["X-Goog-Signature" := [s1]]) == Unsigned(env, q["X-Goog-Signature" := [s2]])
  {
  }

  lemma SameClaims(env: Env, q: Query, s1: string, s2: string)
    requires s1 != "" && s2 != ""
    ensures var c1, c2 := ReadClaims(env, q["X-Goog-Signature" := [s1]]), ReadClaims(env, q["X-Goog-Signature" := [s2]]);
            c1.credential == c2.credential && c1.date == c2.date && c1.signature == env.lower(s1) && c2.signature == env.lower(s2)
  {
    ClaimKeysDiffer();
  }

  lemma ClaimKeysDiffer()
    ensures "X-Goog-Signature" !in {"X-Goog-Algorithm", "x-goog-algorithm", "X-Goog-Credential", "x-goog-credential", "X-Goog-Date", "x-goog-date"}
    ensures "X-Goog-Signature" != "x-goog-signature"
  {
    assert "X-Goog-Algorithm"[7] == 'A' && "x-goog-algorithm"[0] == 'x' && "x-goog-signature"[0] == 'x';
  }

  /** The texts whose hash or MAC is taken when a request is checked. */
  function UrlTexts(env: Env, fmt: Formats, verb: string, host: string, path: string, q: Query): set<string> {
    var c := ReadClaims(env, q);
    var r := UrlRequest(env, fmt, env.upper(verb), host, path, Unsigned(env, q));
    match ReadScope(c.credential)
    case Err(_) => {r}
    case Ok(scope) => {r, StringToSign(env, c.date, scope, r)}
  }

  /** The key they are taken with. */
  function UrlKeys(env: Env, q: Query): set<string> {
    match ReadScope(ReadClaims(env, q).credential)
    case Err(_) => {}
    case Ok(scope) => {DeriveSigningKey(env, SECRET, Split(scope, "/")[0])}
  }

  /** A signature binds the whole request: two requests accepted with one credential, date and signature have the same
      method, host, path and query, unless their texts collide. */
  lemma UrlBinds(env: Env, fmt: Formats, v1: string, h1: string, p1: string, q1: Query, now1: Instant,
                 v2: string, h2: string, p2: string, q2: Query, now2: Instant)
    requires Verify(env, fmt, v1, h1, p1, q1, now1) == None && Verify(env, fmt, v2, h2, p2, q2, now2) == None
    requires var c1, c2 := ReadClaims(env, q1), ReadClaims(env, q2); c1.credential == c2.credential && c1.date == c2.date && c1.signature == c2.signature
    requires PlainParts(env, fmt, env.upper(v1), h1, p1, Unsigned(env, q1)) && PlainParts(env, fmt, env.upper(v2), h2, p2, Unsigned(env, q2))
    requires Distinguishes(env, UrlTexts(env, fmt, v1, h1, p1, q1) + UrlTexts(env, fmt, v2, h2, p2, q2), UrlKeys(env, q1))
    ensures env.upper(v1) == env.upper(v2) && env.lower(h1) == env.lower(h2) && p1 == p2
    ensures fmt.canonical(Unsigned(env, q1)) == fmt.canonical(Unsigned(env, q2))
  {
    var scope, d := AcceptedIsSigned(env, fmt, v1, h1, p1, q1, now1);
    var scope2, d2 := AcceptedIsSigned(env, fmt, v2, h2, p2, q2, now2);
    var r1, r2 := UrlRequest(env, fmt, env.upper(v1), h1, p1, Unsigned(env, q1)), UrlRequest(env, fmt, env.upper(v2), h2, p2, Unsigned(env, q2));
    SignatureBinds(env, SECRET, d, ReadClaims(env, q1).date, scope, r1, r2);
    UrlRequestReadsBack(env, fmt, env.upper(v1), h1, p1, Unsigned(env, q1), env.upper(v2), h2, p2, Unsigned(env, q2));
  }

  /** The method a request is signed for: the one given, or GET. */
  function MethodOf(env: Env, raw: string): string {
    if env.upper(TrimSpace(raw)) == "" then "GET" else env.upper(TrimSpace(raw))
  }

  lemma SameText(fmt: Formats, now: Instant, a: Query, b: Query)
    requires FormatsOk(fmt, now) && Normal(a) == Normal(b)
    ensures fmt.canonical(a) == fmt.canonical(b)
  {
  }

  lemma MintedIs(env: Env, fmt: Formats, req: Request, now: Instant, minted: Query)
    requires Mint(env, fmt, req, now) == Ok(minted)
    ensures minted == SignedQuery(env, fmt, req, now) && Verb(env, req.verb) == MethodOf(env, req.verb)
  {
  }

  lemma InItsWindow(active: Instant, lifetime: int) returns (at: Instant)
    requires lifetime > 0
    ensures active - MINUTES_15 <= at <= active + lifetime * SECOND
  {
    at := active;
  }

  lemma MintedWithin(env: Env, fmt: Formats, req: Request, now: Instant, verb: string, later: Instant)
    requires EnvOk(env) && FormatsOk(fmt, now) && NoSignature(env, req.query)
    requires Mint(env, fmt, req, now).Ok? && env.upper(verb) == Verb(env, req.verb)
    requires now - now % SECOND - MINUTES_15 <= later <= now - now % SECOND + Lifetime(req.expires) * SECOND
    ensures Verify(env, fmt, verb, req.host, req.path, Normal(Mint(env, fmt, req, now).value), later) == None
  {
    MintedVerifies(env, fmt, req, now, verb, later);
  }

  lemma MintedAccepted(env: Env, fmt: Formats, req: Request, now: Instant, minted: Query) returns (at: Instant)
    requires EnvOk(env) && FormatsOk(fmt, now) && NoSignature(env, req.query)
    requires Mint(env, fmt, req, now) == Ok(minted) && env.upper(MethodOf(env, req.verb)) == MethodOf(env, req.verb)
    ensures Verify(env, fmt, MethodOf(env, req.verb), req.host, req.path, Normal(minted), at) == None
  {
    at := InItsWindow(now - now % SECOND, Lifetime(req.expires));
    MintedWithin(env, fmt, req, now, MethodOf(env, req.verb), at);
  }

  lemma MintedUnsigned(env: Env, fmt: Formats, req: Request, now: Instant, minted: Query)
    requires EnvOk(env) && FormatsOk(fmt, now) && NoSignature(env, req.query) && Mint(env, fmt, req, now) == Ok(minted)
    ensures fmt.canonical(Unsigned(env, Normal(minted))) == fmt.canonical(Stamped(fmt, req.query, Lifetime(req.expires), now))
  {
    MintedIs(env, fmt, req, now, minted);
    UnsignedIsStamped(env, fmt, req, now);
    SameText(fmt, now, Unsigned(env, Normal(minted)), Stamped(fmt, req.query, Lifetime(req.expires), now));
  }

  /** A minted signature passes for the request it was minted for and no other: any request accepted with its
      credential, date and signature has its method, host, path and query. */
  lemma MintedBinds(env: Env, fmt: Formats, req: Request, now: Instant, minted: Query,
                    verb: string, host: string, path: string, q: Query, later: Instant)
    requires EnvOk(env) && FormatsOk(fmt, now) && NoSignature(env, req.query)
    requires Mint(env, fmt, req, now) == Ok(minted) && env.upper(MethodOf(env, req.verb)) == MethodOf(env, req.verb)
    requires Verify(env, fmt, verb, host, path, q, later) == None
    requires var c, m := ReadClaims(env, q), ReadClaims(env, Normal(minted)); c.credential == m.credential && c.date == m.date && c.signature == m.signature
    requires PlainParts(env, fmt, MethodOf(env, req.verb), req.host, req.path, Unsigned(env, Normal(minted)))
    requires PlainParts(env, fmt, env.upper(verb), host, path, Unsigned(env, q))
    requires Distinguishes(env, UrlTexts(env, fmt, MethodOf(env, req.verb), req.host, req.path, Normal(minted)) + UrlTexts(env, fmt, verb, host, path, q),
                           UrlKeys(env, Normal(minted)))
    ensures env.upper(verb) == MethodOf(env, req.verb) && env.lower(host) == env.lower(req.host) && path == req.path
    ensures fmt.canonical(Unsigned(env, q)) == fmt.canonical(Stamped(fmt, req.query, Lifetime(req.expires), now))
  {
    var at := MintedAccepted(env, fmt, req, now, minted);
    UrlBinds(env, fmt, MethodOf(env, req.verb), req.host, req.path, Normal(minted), at, verb, host, path, q, later);
    MintedUnsigned(env, fmt, req, now, minted);
  }

  /** Minting is refused exactly for a path that is not absolute or a lifetime above seven days. */
  lemma MintExactly(env: Env, fmt: Formats, req: Request, now: Instant)
    ensures Mint(env, fmt, req, now).Ok? <==> "/" <= req.path && req.expires <= 7 * 24 * 3600
    ensures Lifetime(req.expires) == if req.expires > 0 then req.expires else 15 * 60
  {
  }

  // ---------- signed headers ----------

  function RequestLines(env: Env, fmt: Formats, verb: string, host: string, path: string, q: Query, date: string, signedHeaders: string): seq<string> {
    [env.upper(verb), path, fmt.canonical(q), "host:" + env.lower(host), "x-goog-content-sha256:UNSIGNED-PAYLOAD", "x-goog-date:" + date, "", signedHeaders,
     "UNSIGNED-PAYLOAD"]
  }

  lemma HeaderLinesText(env: Env, host: string, date: string)
    ensures Join(["host:" + env.lower(host), "x-goog-content-sha256:UNSIGNED-PAYLOAD", "x-goog-date:" + date, ""], "\n") == HeaderLines(env, host, date)
  {
    var a, b, c := "host:" + env.lower(host), "x-goog-content-sha256:UNSIGNED-PAYLOAD", "x-goog-date:" + date;
    assert [a, b, c, ""] == [a] + [b, c, ""] && [b, c, ""] == [b] + [c, ""] && [c, ""] == [c] + [""];
    JoinCons(a, [b, c, ""], "\n");
    JoinCons(b, [c, ""], "\n");
    JoinCons(c, [""], "\n");
    assert "x-goog-content-sha256:UNSIGNED-PAYLOAD\n" == b + "\n";
    FourLines(a, b + "\n", "x-goog-date:", date);
  }

  lemma FourLines(a: string, b: string, c: string, d: string)
    ensures a + "\n" + (b + (c + d + "\n" + "")) == a + "\n" + b + c + d + "\n"
  {
  }

  lemma HeaderRequestLines(env: Env, fmt: Formats, verb: string, host: string, path: string, q: Query, date: string, signedHeaders: string)
    ensures HeaderRequest(env, fmt, verb, host, path, q, date, signedHeaders) ==
            Join(RequestLines(env, fmt, verb, host, path, q, date, signedHeaders), "\n")
  {
    HeaderLinesText(env, host, date);
    var before, after := [env.upper(verb), path, fmt.canonical(q)], [signedHeaders, "UNSIGNED-PAYLOAD"];
    var lines := ["host:" + env.lower(host), "x-goog-content-sha256:UNSIGNED-PAYLOAD", "x-goog-date:" + date, ""];
    JoinFlattens(before, lines, after);
    assert before + lines + after == RequestLines(env, fmt, verb, host, path, q, date, signedHeaders);
    assert before + [HeaderLines(env, host, date)] + after ==
           [env.upper(verb), path, fmt.canonical(q), HeaderLines(env, host, date), signedHeaders, "UNSIGNED-PAYLOAD"];
  }

  lemma HeaderRequestReadsBack(env: Env, fmt: Formats, v1: string, h1: string, p1: string, q1: Query, d1: string, s1: string,
                               v2: string, h2: string, p2: string, q2: Query, d2: string, s2: string)
    requires PlainParts(env, fmt, env.upper(v1), h1, p1, q1) && PlainParts(env, fmt, env.upper(v2), h2, p2, q2)
    requires OneLine(d1) && OneLine(d2) && OneLine(s1) && OneLine(s2)
    requires HeaderRequest(env, fmt, v1, h1, p1, q1, d1, s1) == HeaderRequest(env, fmt, v2, h2, p2, q2, d2, s2)
    ensures env.upper(v1) == env.upper(v2) && env.lower(h1) == env.lower(h2) && p1 == p2 && fmt.canonical(q1) == fmt.canonical(q2) && d1 == d2 && s1 == s2
  {
    HeaderRequestLines(env, fmt, v1, h1, p1, q1, d1, s1);
    HeaderRequestLines(env, fmt, v2, h2, p2, q2, d2, s2);
    var a, b := RequestLines(env, fmt, v1, h1, p1, q1, d1, s1), RequestLines(env, fmt, v2, h2, p2, q2, d2, s2);
    assert Lines(a) && Lines(b);
    LinesReadBack(a, b);
    assert a[0] == b[0] && a[1] == b[1] && a[2] == b[2] && a[3] == b[3] && a[5] == b[5] && a[7] == b[7];
    assert a[3][5..] == env.lower(h1) && b[3][5..] == env.lower(h2) && a[5][12..] == d1 && b[5][12..] == d2;
  }

  /** These headers carry the authorization `a`, and are accepted. */
  predicate Accepts(env: Env, fmt: Formats, verb: string, host: string, path: string, raw: string, a: Authorization,
                    date: string, secret: string, now: Instant, q: Query) {
    ReadAuthorization(env, raw) == Some(a) && VerifyHeader(env, fmt, verb, host, path, raw, date, secret, now, q) == None
  }

  lemma AcceptsFields(env: Env, fmt: Formats, verb: string, host: string, path: string, raw: string, a: Authorization,
                      date: string, secret: string, now: Instant, q: Query)
    requires Accepts(env, fmt, verb, host, path, raw, a, date, secret, now, q)
    ensures VerifyFields(env, fmt, verb, host, path, a, date, secret, now, q) == None
  {
  }

  lemma FieldsNeed(env: Env, fmt: Formats, verb: string, host: string, path: string, a: Authorization,
                   date: string, secret: string, now: Instant, q: Query)
    returns (scope: string)
    requires VerifyFields(env, fmt, verb, host, path, a, date, secret, now, q) == None
    ensures a.signedHeaders != "" && a.signature != ""
    ensures fmt.parse(date).Some? && fmt.parse(date).value - 15 * 60 * SECOND <= now <= fmt.parse(date).value + 15 * 60 * SECOND
    ensures ScopeOf(a) == Some(scope) && |Split(scope, "/")| == 4 && Split(scope, "/")[2] == "storage"
    ensures a.signature == Signature(env, secret, Split(scope, "/")[0], HeaderText(env, fmt, verb, host, path, q, date, scope, a.signedHeaders))
  {
    scope := a.credential[Index(a.credential, "/") + 1..];
  }

  /** What stands after the first slash of a credential. */
  function ScopeOf(a: Authorization): Option<string> {
    if Index(a.credential, "/") < 0 then None else Some(a.credential[Index(a.credential, "/") + 1..])
  }

  /** What accepted headers have shown: a signature and header names, a time within 15 minutes of the date, a scope for
      storage, and the signature of this request under the secret. */
  lemma HeaderNeeds(env: Env, fmt: Formats, verb: string, host: string, path: string, raw: string, a: Authorization,
                    date: string, secret: string, now: Instant, q: Query)
    returns (scope: string)
    requires Accepts(env, fmt, verb, host, path, raw, a, date, secret, now, q)
    ensures a.signedHeaders != "" && a.signature != ""
    ensures fmt.parse(date).Some? && fmt.parse(date).value - 15 * 60 * SECOND <= now <= fmt.parse(date).value + 15 * 60 * SECOND
    ensures ScopeOf(a) == Some(scope) && |Split(scope, "/")| == 4 && Split(scope, "/")[2] == "storage"
    ensures a.signature == Signature(env, secret, Split(scope, "/")[0], HeaderText(env, fmt, verb, host, path, q, date, scope, a.signedHeaders))
  {
    AcceptsFields(env, fmt, verb, host, path, raw, a, date, secret, now, q);
    scope := FieldsNeed(env, fmt, verb, host, path, a, date, secret, now, q);
  }

  /** At most one signature passes in a header: two accepted ones with the same credential and header names are the
      same. */
  lemma OneHeaderSignature(env: Env, fmt: Formats, verb: string, host: string, path: string, date: string, secret: string, q: Query,
                           raw1: string, a1: Authorization, now1: Instant, raw2: string, a2: Authorization, now2: Instant)
    requires Accepts(env, fmt, verb, host, path, raw1, a1, date, secret, now1, q)
    requires Accepts(env, fmt, verb, host, path, raw2, a2, date, secret, now2, q)
    requires a1.credential == a2.credential && a1.signedHeaders == a2.signedHeaders
    ensures a1.signature == a2.signature
  {
    var scope1 := HeaderNeeds(env, fmt, verb, host, path, raw1, a1, date, secret, now1, q);
    var scope2 := HeaderNeeds(env, fmt, verb, host, path, raw2, a2, date, secret, now2, q);
    SameSignature(env, fmt, verb, host, path, a1, a2, date, secret, q, scope1, scope2);
  }

  lemma SameSignature(env: Env, fmt: Formats, verb: string, host: string, path: string, a1: Authorization, a2: Authorization,
                      date: string, secret: string, q: Query, scope1: string, scope2: string)
    requires ScopeOf(a1) == Some(scope1) && ScopeOf(a2) == Some(scope2) && a1.credential == a2.credential && a1.signedHeaders == a2.signedHeaders
    requires |Split(scope1, "/")| == 4 && |Split(scope2, "/")| == 4
    requires a1.signature == Signature(env, secret, Split(scope1, "/")[0], HeaderText(env, fmt, verb, host, path, q, date, scope1, a1.signedHeaders))
    requires a2.signature == Signature(env, secret, Split(scope2, "/")[0], HeaderText(env, fmt, verb, host, path, q, date, scope2, a2.signedHeaders))
    ensures a1.signature == a2.signature
  {
    assert scope1 == scope2;
  }

  /** The texts whose hash or MAC is taken when headers are checked. */
  function HeaderTexts(env: Env, fmt: Formats, verb: string, host: string, path: string, a: Authorization, date: string, q: Query): set<string> {
    var r := HeaderRequest(env, fmt, verb, host, path, q, date, a.signedHeaders);
    match ScopeOf(a)
    case None => {r}
    case Some(scope) => {r, StringToSign(env, date, scope, r)}
  }

  function HeaderKeys(env: Env, a: Authorization, secret: string): set<string> {
    match ScopeOf(a)
    case None => {}
    case Some(scope) => {DeriveSigningKey(env, secret, Split(scope, "/")[0])}
  }

  lemma SignedAlike(env: Env, fmt: Formats, secret: string, d: string, date: string, scope: string,
                    v1: string, h1: string, p1: string, q1: Query, s1: string, v2: string, h2: string, p2: string, q2: Query, s2: string)
    requires PlainParts(env, fmt, env.upper(v1), h1, p1, q1) && PlainParts(env, fmt, env.upper(v2), h2, p2, q2)
    requires OneLine(date) && OneLine(s1) && OneLine(s2)
    requires var r1, r2 := HeaderRequest(env, fmt, v1, h1, p1, q1, date, s1), HeaderRequest(env, fmt, v2, h2, p2, q2, date, s2);
             Distinguishes(env, {r1, r2, StringToSign(env, date, scope, r1), StringToSign(env, date, scope, r2)}, {DeriveSigningKey(env, secret, d)})
    requires Signature(env, secret, d, HeaderText(env, fmt, v1, h1, p1, q1, date, scope, s1))
          == Signature(env, secret, d, HeaderText(env, fmt, v2, h2, p2, q2, date, scope, s2))
    ensures env.upper(v1) == env.upper(v2) && env.lower(h1) == env.lower(h2) && p1 == p2 && fmt.canonical(q1) == fmt.canonical(q2) && s1 == s2
  {
    SignatureBinds(env, secret, d, date, scope, HeaderRequest(env, fmt, v1, h1, p1, q1, date, s1), HeaderRequest(env, fmt, v2, h2, p2, q2, date, s2));
    HeaderRequestReadsBack(env, fmt, v1, h1, p1, q1, date, s1, v2, h2, p2, q2, date, s2);
  }

  /** Signed headers bind the request in the same way, and the names of the signed headers with it. */
  lemma HeaderBinds(env: Env, fmt: Formats, date: string, secret: string,
                    v1: string, h1: string, p1: string, raw1: string, a1: Authorization, now1: Instant, q1: Query,
                    v2: string, h2: string, p2: string, raw2: string, a2: Authorization, now2: Instant, q2: Query)
    requires Accepts(env, fmt, v1, h1, p1, raw1, a1, date, secret, now1, q1)
    requires Accepts(env, fmt, v2, h2, p2, raw2, a2, date, secret, now2, q2)
    requires a1.credential == a2.credential && a1.signature == a2.signature && OneLine(a1.signedHeaders) && OneLine(a2.signedHeaders)
    requires PlainParts(env, fmt, env.upper(v1), h1, p1, q1) && PlainParts(env, fmt, env.upper(v2), h2, p2, q2) && OneLine(date)
    requires Distinguishes(env, HeaderTexts(env, fmt, v1, h1, p1, a1, date, q1) + HeaderTexts(env, fmt, v2, h2, p2, a2, date, q2),
                           HeaderKeys(env, a1, secret))
    ensures env.upper(v1) == env.upper(v2) && env.lower(h1) == env.lower(h2) && p1 == p2 && fmt.canonical(q1) == fmt.canonical(q2)
    ensures a1 == a2
  {
    var scope := HeaderNeeds(env, fmt, v1, h1, p1, raw1, a1, date, secret, now1, q1);
    var scope2 := HeaderNeeds(env, fmt, v2, h2, p2, raw2, a2, date, secret, now2, q2);
    assert scope == scope2;
    SignedAlike(env, fmt, secret, Split(scope, "/")[0], date, scope, v1, h1, p1, q1, a1.signedHeaders, v2, h2, p2, q2, a2.signedHeaders);
  }

  // ---------- secrets ----------

  /** The keys that are made on the way to the signing key. */
  function KeyChain(env: Env, secret: string, d: string): set<string> {
    var date := env.hmac("GOOG4" + secret, d);
    var region := env.hmac(date, "auto");
    var service := env.hmac(region, "storage");
    {"GOOG4" + secret, date, region, service, env.hmac(service, "goog4_request")}
  }

  /** No two of the keys made from these secrets collide on the way to this signature. */
  ghost predicate KeysDiffer(env: Env, s1: string, s2: string, d: string, text: string) {
    Distinguishes(env, {d, "auto", "storage", "goog4_request", text}, KeyChain(env, s1, d) + KeyChain(env, s2, d))
  }

  lemma KeyBinds(env: Env, s1: string, s2: string, d: string, text: string)
    requires KeysDiffer(env, s1, s2, d, text) && Signature(env, s1, d, text) == Signature(env, s2, d, text)
    ensures s1 == s2
  {
    HexInjective(env.hmac(DeriveSigningKey(env, s1, d), text), env.hmac(DeriveSigningKey(env, s2, d), text));
    assert ("GOOG4" + s1)[5..] == s1 && ("GOOG4" + s2)[5..] == s2;
  }

  /** Headers accepted under two secrets show that the secrets are the same, unless keys collide. */
  lemma SecretBinds(env: Env, fmt: Formats, verb: string, host: string, path: string, raw: string, a: Authorization,
                    date: string, q: Query, s1: string, now1: Instant, s2: string, now2: Instant)
    requires Accepts(env, fmt, verb, host, path, raw, a, date, s1, now1, q) && Accepts(env, fmt, verb, host, path, raw, a, date, s2, now2, q)
    requires ScopeOf(a).Some? ==>
               KeysDiffer(env, s1, s2, Split(ScopeOf(a).value, "/")[0], HeaderText(env, fmt, verb, host, path, q, date, ScopeOf(a).value, a.signedHeaders))
    ensures s1 == s2
  {
    var scope := HeaderNeeds(env, fmt, verb, host, path, raw, a, date, s1, now1, q);
    var scope2 := HeaderNeeds(env, fmt, verb, host, path, raw, a, date, s2, now2, q);
    KeyBinds(env, s1, s2, Split(scope, "/")[0], HeaderText(env, fmt, verb, host, path, q, date, scope, a.signedHeaders));
  }
}
