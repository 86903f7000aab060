/** V4 signed URLs and signed headers: minting them and verifying them. */
module GcsSigned {
  import opened Basics
  import opened Text
  import opened Decimal
  import opened QueryString
  import opened Timestamps

  const ACCESS_ID: string := "noctaxris-gcp-lab"
  const SECRET: string := "noctaxris-gcp-lab-hmac-secret"
  const ALGORITHM: string := "GOOG4-HMAC-SHA256"

  const MINUTES_15: int := 15 * 60 * SECOND

  /** What the standard library supplies: Unicode case mapping, SHA-256 in hexadecimal, and HMAC-SHA256. */
  datatype Env = Env(
    lower: string -> string, upper: string -> string, equalFold: (string, string) -> bool,
    sha256Hex: string -> string, hmac: (string, string) -> string)

  /** How Go writes and reads times and prints queries; the store uses `FORMATS`. */
  datatype Formats = Formats(datestamp: Instant -> string, stamp: Instant -> string, parse: string -> Option<Instant>, canonical: Query -> string)

  const FORMATS: Formats := Formats(t => Datestamp(t), t => Stamp(t), s => ParseStamp(s), q => Canonical(q))

  datatype Error =
    | PathNotAbsolute | ExpiresTooLong | UnsupportedAlgorithm | MissingParameters | HostNotSigned | InvalidExpires
    | InvalidDate | Expired | NotYetValid | UnknownAccessId | InvalidCredential | InvalidScope | SignatureMismatch | MissingAuthorization | MissingDate

  // ---------- what is signed ----------

  function LowerHex(d: nat): (c: char)
    requires d < 16
    ensures '0' <= c <= '9' || 'a' <= c <= 'f'
  {
    if d < 10 then '0' + d as char else 'a' + (d - 10) as char
  }

  /** hex.EncodeToString. */
  function HexEncode(bytes: string): string {
    if bytes == "" then ""
    else
      var n := bytes[0] as nat % 256;
      [LowerHex(n / 16), LowerHex(n % 16)] + HexEncode(bytes[1..])
  }

  function DeriveSigningKey(env: Env, secret: string, datestamp: string): string {
    var date := env.hmac("GOOG4" + secret, datestamp);
    var region := env.hmac(date, "auto");
    var service := env.hmac(region, "storage");
    env.hmac(service, "goog4_request")
  }

  function CanonicalRequest(verb: string, path: string, query: string, headers: string, signedHeaders: string): string {
    Join([verb, path, query, headers, signedHeaders, "UNSIGNED-PAYLOAD"], "\n")
  }

  function StringToSign(env: Env, timestamp: string, scope: string, request: string): string {
    Join([ALGORITHM, timestamp, scope, env.sha256Hex(request)], "\n")
  }

  function Signature(env: Env, secret: string, datestamp: string, text: string): string {
    HexEncode(env.hmac(DeriveSigningKey(env, secret, datestamp), text))
  }

  function Scope(datestamp: string): string {
    datestamp + "/auto/storage/goog4_request"
  }

  // ---------- signed URLs ----------

  datatype Request = Request(verb: string, host: string, path: string, expires: int, query: Query)

  /** The entries `Add` makes of a query: keys without values disappear. */
  function Copied(q: Query, keep: string -> bool): Query {
    map k | k in q && q[k] != [] && keep(k) :: q[k]
  }

  function Stamped(fmt: Formats, q: Query, expires: int, now: Instant): Query
    requires expires > 0
  {
    Copied(q, _ => true)
      ["X-Goog-Algorithm" := [ALGORITHM]]
      ["X-Goog-Credential" := [ACCESS_ID + "/" + Scope(fmt.datestamp(now))]]
      ["X-Goog-Date" := [fmt.stamp(now)]]
      ["X-Goog-Expires" := [Itoa(expires)]]
      ["X-Goog-SignedHeaders" := ["host"]]
  }

  function Verb(env: Env, raw: string): string {
    var v := env.upper(TrimSpace(raw));
    if v == "" then "GET" else v
  }

  function Lifetime(expires: int): (r: int)
    ensures r > 0
  {
    if expires <= 0 then 900 else expires
  }

  function UrlRequest(env: Env, fmt: Formats, verb: string, host: string, path: string, q: Query): string {
    CanonicalRequest(verb, path, fmt.canonical(q), "host:" + env.lower(host) + "\n", "host")
  }

  /** The text whose MAC the signature of a URL is. */
  function UrlText(env: Env, fmt: Formats, verb: string, host: string, path: string, q: Query, timestamp: string, scope: string): string {
    StringToSign(env, timestamp, scope, UrlRequest(env, fmt, verb, host, path, q))
  }

  function SignedQuery(env: Env, fmt: Formats, req: Request, now: Instant): Query {
    var q := Stamped(fmt, req.query, Lifetime(req.expires), now);
    var d := fmt.datestamp(now);
    q["X-Goog-Signature" := [Signature(env, SECRET, d, UrlText(env, fmt, Verb(env, req.verb), req.host, req.path, q, fmt.stamp(now), Scope(d)))]]
  }

  /** The query of a minted URL. */
  function Mint(env: Env, fmt: Formats, req: Request, now: Instant): Result<Query, Error> {
    if !("/" <= req.path) then Err(PathNotAbsolute)
    else if Lifetime(req.expires) > 604800 then Err(ExpiresTooLong)
    else Ok(SignedQuery(env, fmt, req, now))
  }

  /** url.Values.Get. */
  function Get(q: Query, k: string): string {
    if k in q && q[k] != [] then q[k][0] else ""
  }

  function FirstQuery(q: Query, a: string, b: string): string {
    if Get(q, a) != "" then Get(q, a) else Get(q, b)
  }

  /** What the query parameters of a request claim. */
  datatype Claims = Claims(algorithm: string, credential: string, date: string, expires: string, signedHeaders: string, signature: string)

  function ReadClaims(env: Env, q: Query): Claims {
    Claims(FirstQuery(q, "X-Goog-Algorithm", "x-goog-algorithm"),
           FirstQuery(q, "X-Goog-Credential", "x-goog-credential"),
           FirstQuery(q, "X-Goog-Date", "x-goog-date"),
           FirstQuery(q, "X-Goog-Expires", "x-goog-expires"),
           env.lower(FirstQuery(q, "X-Goog-SignedHeaders", "x-goog-signedheaders")),
           env.lower(FirstQuery(q, "X-Goog-Signature", "x-goog-signature")))
  }

  /** strconv.Atoi. */
  function Atoi(s: string): Option<int> {
    match ScanInt(s)
    case None => None
    case Some(n) => if n.1 == "" then Some(n.0) else None
  }

  /** The claims can be read, and `now` lies in the time they allow. */
  function CheckTime(env: Env, fmt: Formats, c: Claims, now: Instant): Option<Error> {
    if !env.equalFold(c.algorithm, ALGORITHM) then Some(UnsupportedAlgorithm)
    else if c.credential == "" || c.date == "" || c.expires == "" || c.signedHeaders == "" || c.signature == "" then Some(MissingParameters)
    else if !Contains(c.signedHeaders, "host") then Some(HostNotSigned)
    else if Atoi(c.expires).None? || Atoi(c.expires).value <= 0 then Some(InvalidExpires)
    else
      match fmt.parse(c.date)
      case None => Some(InvalidDate)
      case Some(active) =>
        if now > active + Seconds(Atoi(c.expires).value) then Some(Expired)
        else if now < active - MINUTES_15 then Some(NotYetValid)
        else None
  }

  /** The scope of a credential `id/date/region/storage/goog4_request`. */
  function ReadScope(credential: string): Result<string, Error> {
    var i := Index(credential, "/");
    if i < 0 || credential[..i] != ACCESS_ID then Err(UnknownAccessId)
    else
      var scope := credential[i + 1..];
      var parts := Split(scope, "/");
      if |parts| != 4 || parts[2] != "storage" || parts[3] != "goog4_request" then Err(InvalidScope) else Ok(scope)
  }

  predicate SignatureKey(env: Env, k: string) {
    env.lower(k) == "x-goog-signature"
  }

  /** The query as it was before it was signed: every key but the signature. */
  function Unsigned(env: Env, q: Query): Query {
    Copied(q, k => !SignatureKey(env, k))
  }

  /** `None` when the request is accepted. */
  function Verify(env: Env, fmt: Formats, verb: string, host: string, path: string, q: Query, now: Instant): Option<Error> {
    var c := ReadClaims(env, q);
    var time := CheckTime(env, fmt, c, now);
    if time.Some? then time
    else
      match ReadScope(c.credential)
      case Err(e) => Some(e)
      case Ok(scope) =>
        var text := UrlText(env, fmt, env.upper(verb), host, path, Unsigned(env, q), c.date, scope);
        if Signature(env, SECRET, Split(scope, "/")[0], text) == c.signature then None else Some(SignatureMismatch)
  }

  // ---------- signed headers ----------

  const SIGNED_HEADERS: string := "host;x-goog-content-sha256;x-goog-date"

  function HeaderLines(env: Env, host: string, date: string): string {
    "host:" + env.lower(host) + "\n" + "x-goog-content-sha256:UNSIGNED-PAYLOAD\n" + "x-goog-date:" + date + "\n"
  }

  function HeaderRequest(env: Env, fmt: Formats, verb: string, host: string, path: string, q: Query, date: string, signedHeaders: string): string {
    CanonicalRequest(env.upper(verb), path, fmt.canonical(q), HeaderLines(env, host, date), signedHeaders)
  }

  function HeaderText(env: Env, fmt: Formats, verb: string, host: string, path: string, q: Query, date: string, scope: string, signedHeaders: string): string {
    StringToSign(env, date, scope, HeaderRequest(env, fmt, verb, host, path, q, date, signedHeaders))
  }

  /** SignGOOG4HMACHeader: the Authorization header and the date header. */
  function SignHeader(env: Env, fmt: Formats, verb: string, host: string, path: string, accessId: string, secret: string, now: Instant, q: Query): (string, string) {
    var d, t := fmt.datestamp(now), fmt.stamp(now);
    var signature := Signature(env, secret, d, HeaderText(env, fmt, verb, host, path, q, t, Scope(d), SIGNED_HEADERS));
    (ALGORITHM + " Credential=" + accessId + "/" + Scope(d) + ", SignedHeaders=" + SIGNED_HEADERS + ", Signature=" + signature, t)
  }

  /** The three fields of an Authorization header; a later field of the same name wins. */
  datatype Authorization = Authorization(credential: string, signedHeaders: string, signature: string)

  function AddField(env: Env, a: Authorization, raw: string): Authorization {
    var p := TrimSpace(raw);
    if "Credential=" <= p then a.(credential := TrimPrefix(p, "Credential="))
    else if "SignedHeaders=" <= p then a.(signedHeaders := env.lower(TrimPrefix(p, "SignedHeaders=")))
    else if "Signature=" <= p then a.(signature := env.lower(TrimPrefix(p, "Signature=")))
    else a
  }

  function AddFields(env: Env, a: Authorization, parts: seq<string>): Authorization
    decreases |parts|
  {
    if parts == [] then a else AddFields(env, AddField(env, a, parts[0]), parts[1..])
  }

  function ReadAuthorization(env: Env, raw: string): Option<Authorization> {
    var authorization := TrimSpace(raw);
    if !(ALGORITHM + " " <= authorization) then None
    else
      var rest := TrimSpace(TrimPrefix(authorization, ALGORITHM + " "));
      Some(AddFields(env, Authorization("", "", ""), Split(rest, ",")))
  }

  function VerifyFields(env: Env, fmt: Formats, verb: string, host: string, path: string, a: Authorization, date: string, secret: string, now: Instant, q: Query): Option<Error> {
    if a.credential == "" || a.signedHeaders == "" || a.signature == "" then Some(MissingParameters)
    else if date == "" then Some(MissingDate)
    else
      match fmt.parse(date)
      case None => Some(InvalidDate)
      case Some(active) =>
        if now > active + MINUTES_15 then Some(Expired)
        else if now < active - MINUTES_15 then Some(NotYetValid)
        else
          var i := Index(a.credential, "/");
          if i < 0 then Some(InvalidCredential)
          else
            var scope := a.credential[i + 1..];
            var parts := Split(scope, "/");
            if |parts| != 4 || parts[2] != "storage" then Some(InvalidScope)
            else
              var text := HeaderText(env, fmt, verb, host, path, q, date, scope, a.signedHeaders);
              if Signature(env, secret, parts[0], text) == a.signature then None else Some(SignatureMismatch)
  }

  function VerifyHeader(env: Env, fmt: Formats, verb: string, host: string, path: string, authorization: string, date: string, secret: string, now: Instant, q: Query): Option<Error> {
    match ReadAuthorization(env, authorization)
    case None => Some(MissingAuthorization)
    case Some(a) => VerifyFields(env, fmt, verb, host, path, a, date, secret, now, q)
  }

  /** GOOG4AccessID. */
  function AccessIdOf(raw: string): string {
    var authorization := TrimSpace(raw);
    var i := Index(authorization, "Credential=");
    if i < 0 then ""
    else
      var rest := authorization[i + |"Credential="|..];
      var slash, comma := Index(rest, "/"), Index(rest, ",");
      if slash > 0 then rest[..slash] else if comma > 0 then rest[..comma] else rest
  }

  // ---------- the store's procedures ----------

  method CopyQuery(q: Query, keep: string -> bool) returns (r: Query)
    ensures r == Copied(q, keep)
  {
    r := map[];
    var todo := q.Keys;
    while todo != {}
      invariant todo <= q.Keys
      invariant forall k :: k in r <==> k in q && k !in todo && q[k] != [] && keep(k)
      invariant forall k :: k in r && k in q ==> r[k] == q[k]
      decreases todo
    {
      var k :| k in todo;
      todo := todo - {k};
      if keep(k) { r := AddValues(r, k, q[k]); }
    }
    SameMap(r, Copied(q, keep));
  }

  /** The inner loop: one `Add` for every value. */
  method AddValues(q: Query, k: string, vs: seq<string>) returns (r: Query)
    requires k !in q
    ensures r == if vs == [] then q else q[k := vs]
  {
    r := q;
    for j := 0 to |vs|
      invariant r == if j == 0 then q else q[k := vs[..j]]
    {
      assert vs[..j + 1] == vs[..j] + [vs[j]];
      r := Add(r, k, vs[j]);
    }
    assert vs[..|vs|] == vs;
  }

  method GenerateV4SignedURL(env: Env, fmt: Formats, req: Request, now: Instant) returns (r: Result<string, Error>)
    ensures match Mint(env, fmt, req, now)
            case Err(e) => r == Err(e)
            case Ok(q) => r == Ok("http://" + req.host + req.path + "?" + fmt.canonical(q))
  {
    var verb := env.upper(TrimSpace(req.verb));
    if verb == "" { verb := "GET"; }
    if !("/" <= req.path) { return Err(PathNotAbsolute); }
    var expires := req.expires;
    if expires <= 0 { expires := 900; }
    if expires > 604800 { return Err(ExpiresTooLong); }
    var datestamp, timestamp := fmt.datestamp(now), fmt.stamp(now);
    var scope := Scope(datestamp);
    var q := CopyQuery(req.query, _ => true);
    q := q["X-Goog-Algorithm" := [ALGORITHM]];
    q := q["X-Goog-Credential" := [ACCESS_ID + "/" + scope]];
    q := q["X-Goog-Date" := [timestamp]];
    q := q["X-Goog-Expires" := [Itoa(expires)]];
    q := q["X-Goog-SignedHeaders" := ["host"]];
    var text := UrlText(env, fmt, verb, req.host, req.path, q, timestamp, scope);
    q := q["X-Goog-Signature" := [Signature(env, SECRET, datestamp, text)]];
    r := Ok("http://" + req.host + req.path + "?" + fmt.canonical(q));
  }

  method VerifyV4SignedRequest(env: Env, fmt: Formats, verb: string, host: string, path: string, query: Query, now: Instant) returns (r: Option<Error>)
    ensures r == Verify(env, fmt, verb, host, path, query, now)
  {
    var c := ReadClaims(env, query);
    if !env.equalFold(c.algorithm, ALGORITHM) { return Some(UnsupportedAlgorithm); }
    if c.credential == "" || c.date == "" || c.expires == "" || c.signedHeaders == "" || c.signature == "" { return Some(MissingParameters); }
    if !Contains(c.signedHeaders, "host") { return Some(HostNotSigned); }
    var expires := Atoi(c.expires);
    if expires.None? || expires.value <= 0 { return Some(InvalidExpires); }
    var active := fmt.parse(c.date);
    if active.None? { return Some(InvalidDate); }
    if now > active.value + Seconds(expires.value) { return Some(Expired); }
    if now < active.value - MINUTES_15 { return Some(NotYetValid); }
    var i := Index(c.credential, "/");
    if i < 0 || c.credential[..i] != ACCESS_ID { return Some(UnknownAccessId); }
    var scope := c.credential[i + 1..];
    var parts := Split(scope, "/");
    if |parts| != 4 || parts[2] != "storage" || parts[3] != "goog4_request" { return Some(InvalidScope); }
    var q := CopyQuery(query, k => env.lower(k) != "x-goog-signature");
    assert q == Unsigned(env, query);
    var text := UrlText(env, fmt, env.upper(verb), host, path, q, c.date, scope);
    r := if Signature(env, SECRET, parts[0], text) == c.signature then None else Some(SignatureMismatch);
  }

  /** The loop over the fields of an Authorization header. */
  method ReadFields(env: Env, parts: seq<string>) returns (a: Authorization)
    ensures a == AddFields(env, Authorization("", "", ""), parts)
  {
    a := Authorization("", "", "");
    for k := 0 to |parts|
      invariant AddFields(env, Authorization("", "", ""), parts) == AddFields(env, a, parts[k..])
    {
      assert parts[k..][0] == parts[k] && parts[k..][1..] == parts[k + 1..];
      var p := TrimSpace(parts[k]);
      if "Credential=" <= p {
        a := a.(credential := TrimPrefix(p, "Credential="));
      } else if "SignedHeaders=" <= p {
        a := a.(signedHeaders := env.lower(TrimPrefix(p, "SignedHeaders=")));
      } else if "Signature=" <= p {
        a := a.(signature := env.lower(TrimPrefix(p, "Signature=")));
      }
    }
  }

  method SignGOOG4HMACHeader(env: Env, fmt: Formats, verb: string, host: string, path: string, accessId: string, secret: string, now: Instant, q: Query)
    returns (authorization: string, date: string)
    ensures (authorization, date) == SignHeader(env, fmt, verb, host, path, accessId, secret, now, q)
  {
    var datestamp, timestamp := fmt.datestamp(now), fmt.stamp(now);
    var scope := Scope(datestamp);
    var text := HeaderText(env, fmt, verb, host, path, q, timestamp, scope, SIGNED_HEADERS);
    var signature := Signature(env, secret, datestamp, text);
    authorization := ALGORITHM + " Credential=" + accessId + "/" + scope + ", SignedHeaders=" + SIGNED_HEADERS + ", Signature=" + signature;
    date := timestamp;
  }

  method VerifyGOOG4HMACHeader(env: Env, fmt: Formats, verb: string, host: string, path: string, raw: string, date: string, secret: string, now: Instant, q: Query)
    returns (r: Option<Error>)
    ensures r == VerifyHeader(env, fmt, verb, host, path, raw, date, secret, now, q)
  {
    var authorization := TrimSpace(raw);
    if !(ALGORITHM + " " <= authorization) { return Some(MissingAuthorization); }
    var rest := TrimSpace(TrimPrefix(authorization, ALGORITHM + " "));
    var a := ReadFields(env, Split(rest, ","));
    if a.credential == "" || a.signedHeaders == "" || a.signature == "" { return Some(MissingParameters); }
    if date == "" { return Some(MissingDate); }
    var active := fmt.parse(date);
    if active.None? { return Some(InvalidDate); }
    if now > active.value + MINUTES_15 { return Some(Expired); }
    if now < active.value - MINUTES_15 { return Some(NotYetValid); }
    var i := Index(a.credential, "/");
    if i < 0 { return Some(InvalidCredential); }
    var scope := a.credential[i + 1..];
    var parts := Split(scope, "/");
    if |parts| != 4 || parts[2] != "storage" { return Some(InvalidScope); }
    var text := HeaderText(env, fmt, verb, host, path, q, date, scope, a.signedHeaders);
    r := if Signature(env, secret, parts[0], text) == a.signature then None else Some(SignatureMismatch);
  }
}
