/** Service perimeters: project references, the numbers they stand for, and the deny check. */
module Perimeter {
  import opened Basics
  import opened Text
  import opened Decimal

  // ---------- project numbers ----------

  /** UTF-8. */
  function EncodeRune(c: char): seq<nat> {
    var n := c as nat;
    if n < 0x80 then [n]
    else if n < 0x800 then [0xC0 + n / 0x40, 0x80 + n % 0x40]
    else if n < 0x1_0000 then [0xE0 + n / 0x1000, 0x80 + n / 0x40 % 0x40, 0x80 + n % 0x40]
    else [0xF0 + n / 0x4_0000, 0x80 + n / 0x1000 % 0x40, 0x80 + n / 0x40 % 0x40, 0x80 + n % 0x40]
  }

  function Encode(s: string): seq<nat> {
    if s == "" then [] else EncodeRune(s[0]) + Encode(s[1..])
  }

  /** The polynomial in 131 whose coefficients are the bytes, without any bound. */
  function Polynomial(bytes: seq<nat>): nat {
    if bytes == [] then 0 else Polynomial(bytes[..|bytes| - 1]) * 131 + bytes[|bytes| - 1]
  }

  const TRILLION: nat := 1_000_000_000_000

  function Folded(n: nat): (r: nat)
    ensures 1 <= r < TRILLION
  {
    if n % TRILLION == 0 then 1 else n % TRILLION
  }

  /** The number of a project id: its polynomial modulo 2^64, then modulo 10^12, with 0 counted as 1. */
  function ProjectNumber(raw: string): string {
    var id := TrimSpace(raw);
    if id == "" then "" else Itoa(Folded(Polynomial(Encode(id)) % TWO64))
  }

  lemma WrapStep(p: nat, byte: nat)
    ensures ((p % TWO64) * 131 + byte) % TWO64 == (p * 131 + byte) % TWO64
  {
    var q, r := p / TWO64, p % TWO64;
    assert p == q * TWO64 + r;
    assert p * 131 + byte == (q * 131) * TWO64 + (r * 131 + byte);
    DropMultiples(q * 131, r * 131 + byte);
  }

  lemma {:induction false} DropMultiples(k: nat, x: nat)
    ensures (k * TWO64 + x) % TWO64 == x % TWO64
  {
    if k > 0 {
      DropMultiples(k - 1, x);
      assert k * TWO64 + x == ((k - 1) * TWO64 + x) + TWO64;
    }
  }

  /** LabProjectNumber, with the wrapping accumulator of the source. */
  method LabProjectNumber(raw: string) returns (number: string)
    ensures number == ProjectNumber(raw)
  {
    var id := TrimSpace(raw);
    if id == "" { return ""; }
    var bytes := Encode(id);
    var n: nat := 0;
    for i := 0 to |bytes|
      invariant n == Polynomial(bytes[..i]) % TWO64
    {
      assert bytes[..i + 1][..i] == bytes[..i];
      WrapStep(Polynomial(bytes[..i]), bytes[i]);
      n := (n * 131 + bytes[i]) % TWO64;
    }
    assert bytes[..|bytes|] == bytes;
    n := n % 1_000_000_000_000;
    if n == 0 { n := 1; }
    number := Itoa(n);
  }

  /** The number of an id that is not blank is a plain decimal from 1 to 10^12 - 1. */
  lemma NumberRange(raw: string)
    requires TrimSpace(raw) != ""
    ensures Plain(ProjectNumber(raw)) && 1 <= Value(ProjectNumber(raw)) < TRILLION
  {
    var n := Folded(Polynomial(Encode(TrimSpace(raw))) % TWO64);
    ItoaIsPlain(n);
    ValueOfItoa(n);
  }

  // ---------- references ----------

  const PREFIX: string := "projects/"

  function Bare(ref: string): string {
    TrimPrefix(TrimSpace(ref), PREFIX)
  }

  predicate IsNumber(s: string) {
    s != "" && AllDigits(s)
  }

  /** What a reference comes down to: digits stand for themselves, anything else for its project number. */
  function Canonical(ref: string): string {
    if IsNumber(Bare(ref)) then Bare(ref) else ProjectNumber(Bare(ref))
  }

  method IsDecimalProjectNumber(s: string) returns (r: bool)
    ensures r == IsNumber(s)
  {
    if s == "" { return false; }
    for i := 0 to |s|
      invariant forall j :: 0 <= j < i ==> IsDigit(s[j])
    {
      if s[i] < '0' || s[i] > '9' { return false; }
    }
    r := true;
  }

  predicate RefsMatch(a: string, b: string) {
    var x, y := Bare(a), Bare(b);
    x != "" && y != "" && (x == y || (Canonical(a) != "" && Canonical(a) == Canonical(b)))
  }

  method ProjectRefsMatch(rawA: string, rawB: string) returns (r: bool)
    ensures r == RefsMatch(rawA, rawB)
  {
    var a, b := TrimPrefix(TrimSpace(rawA), PREFIX), TrimPrefix(TrimSpace(rawB), PREFIX);
    if a == "" || b == "" { return false; }
    if a == b { return true; }
    var aNum, bNum := a, b;
    var isNumber := IsDecimalProjectNumber(a);
    if !isNumber { aNum := LabProjectNumber(a); }
    isNumber := IsDecimalProjectNumber(b);
    if !isNumber { bNum := LabProjectNumber(b); }
    r := aNum != "" && aNum == bNum;
  }

  /** A bare reference that is not empty is not blank either: it ends where the trimmed text ends. */
  lemma BareNotBlank(ref: string)
    requires Bare(ref) != ""
    ensures TrimSpace(Bare(ref)) != ""
  {
    var t, b := TrimSpace(ref), Bare(ref);
    TrimSpaceTrims(ref);
    assert b[|b| - 1] == t[|t| - 1];
    TrimSpaceTrims(b);
    assert b[|b| - 1] in b;
  }

  /** Two references match exactly when both are non-empty and come down to the same number, so matching is
      an equivalence on non-empty references. */
  lemma MatchIsSameNumber(a: string, b: string)
    ensures RefsMatch(a, b) <==> Bare(a) != "" && Bare(b) != "" && Canonical(a) == Canonical(b)
    ensures Bare(a) != "" ==> Canonical(a) != "" && RefsMatch(a, a)
    ensures RefsMatch(a, b) == RefsMatch(b, a)
  {
    if Bare(a) != "" { BareNotBlank(a); }
    if Bare(b) != "" { BareNotBlank(b); }
  }

  lemma MatchTransitive(a: string, b: string, c: string)
    requires RefsMatch(a, b) && RefsMatch(b, c)
    ensures RefsMatch(a, c)
  {
    MatchIsSameNumber(a, b);
    MatchIsSameNumber(b, c);
    MatchIsSameNumber(a, c);
  }

  // ---------- membership ----------

  predicate Listed(rawResource: string, rawRef: string) {
    var r, ref := TrimSpace(rawResource), TrimSpace(rawRef);
    var bare := TrimPrefix(ref, PREFIX);
    r != "" && (r == ref || r == bare || TrimPrefix(r, PREFIX) == bare || r == PREFIX + bare || RefsMatch(bare, TrimPrefix(r, PREFIX)))
  }

  ghost predicate Inside(resources: seq<string>, ref: string) {
    TrimSpace(ref) != "" && exists r :: r in resources && Listed(r, ref)
  }

  method ProjectInPerimeterResources(resources: seq<string>, rawRef: string) returns (inside: bool)
    ensures inside == Inside(resources, rawRef)
  {
    var ref := TrimSpace(rawRef);
    if ref == "" { return false; }
    var bare := TrimPrefix(ref, PREFIX);
    for i := 0 to |resources|
      invariant forall j :: 0 <= j < i ==> !Listed(resources[j], rawRef)
    {
      var r := TrimSpace(resources[i]);
      if r == "" { continue; }
      var rBare := TrimPrefix(r, PREFIX);
      if r == ref || r == bare || rBare == bare || r == PREFIX + bare {
        assert resources[i] in resources && Listed(resources[i], rawRef);
        return true;
      }
      var matches := ProjectRefsMatch(bare, rBare);
      if matches {
        assert resources[i] in resources && Listed(resources[i], rawRef);
        return true;
      }
    }
    inside := false;
  }

  /** A reference with one prefix at most and nothing around the id. */
  predicate Simple(ref: string) {
    Bare(ref) != "" && Trimmed(Bare(ref)) && !(PREFIX <= Bare(ref))
  }

  lemma SimpleBare(ref: string)
    requires Simple(ref)
    ensures Bare(Bare(ref)) == Bare(ref) && Canonical(Bare(ref)) == Canonical(ref) && TrimSpace(ref) != ""
  {
    TrimSpaceId(Bare(ref));
  }

  lemma PrefixedBare(r: string, ref: string)
    requires Simple(ref) && TrimSpace(r) == PREFIX + Bare(ref)
    ensures Bare(r) == Bare(ref)
  {
    assert (PREFIX + Bare(ref))[|PREFIX|..] == Bare(ref);
  }

  /** For simple references all the spelled-out comparisons are covered by the number: a resource lists a
      project exactly when both come down to the same number. */
  lemma ListedIsSameNumber(r: string, ref: string)
    requires Simple(r) && Simple(ref)
    ensures Listed(r, ref) <==> Canonical(r) == Canonical(ref)
  {
    SimpleBare(r);
    SimpleBare(ref);
    MatchIsSameNumber(Bare(ref), Bare(r));
    if TrimSpace(r) == PREFIX + Bare(ref) { PrefixedBare(r, ref); }
  }

  // ---------- the deny check ----------

  datatype Config = Absent | Broken | Config(resources: seq<string>, services: seq<string>)

  /** A perimeter row: its status, its dry-run spec, and whether the dry-run spec is explicit. */
  datatype Row = Row(status: Config, spec: Config, dryRun: bool)

  function Active(row: Row): Config {
    if row.status.Absent? then (if row.dryRun then row.spec else Absent) else row.status
  }

  predicate Restricts(c: Config, service: string)
    requires c.Config?
  {
    exists s :: s in c.services && TrimSpace(s) == service
  }

  /** The row alone is reason to deny. */
  ghost predicate Denies(row: Row, from: string, to: string, service: string) {
    match Active(row)
    case Absent => false
    case Broken => true
    case Config(resources, _) => Restricts(Active(row), service) && Inside(resources, from) != Inside(resources, to)
  }

  method RestrictedServiceListed(list: seq<string>, service: string) returns (listed: bool)
    ensures listed <==> exists s :: s in list && TrimSpace(s) == service
  {
    for i := 0 to |list|
      invariant forall j :: 0 <= j < i ==> TrimSpace(list[j]) != service
    {
      if TrimSpace(list[i]) == service {
        assert list[i] in list;
        return true;
      }
    }
    listed := false;
  }

  /** VPCSCDenyCrossPerimeter: denied exactly when enforcement is on, the request names a project and a
      service, and some row restricts the service and places the two projects on different sides, or cannot be
      read. */
  method DenyCrossPerimeter(enforce: bool, rows: seq<Row>, rawFrom: string, rawTo: string, rawService: string) returns (denied: bool)
    ensures denied <==> enforce && TrimSpace(rawTo) != "" && TrimSpace(rawService) != ""
                        && exists row :: row in rows && Denies(row, TrimSpace(rawFrom), TrimSpace(rawTo), TrimSpace(rawService))
  {
    if !enforce { return false; }
    var from, to, service := TrimSpace(rawFrom), TrimSpace(rawTo), TrimSpace(rawService);
    if to == "" || service == "" { return false; }
    for i := 0 to |rows|
      invariant forall j :: 0 <= j < i ==> !Denies(rows[j], from, to, service)
    {
      var cfg := rows[i].status;
      if cfg.Absent? {
        if !rows[i].dryRun { continue; }
        cfg := rows[i].spec;
      }
      if cfg.Absent? { continue; }
      assert cfg == Active(rows[i]);
      if cfg.Broken? {
        assert rows[i] in rows;
        return true;
      }
      var listed := RestrictedServiceListed(cfg.services, service);
      if !listed { continue; }
      var fromIn := ProjectInPerimeterResources(cfg.resources, from);
      var toIn := ProjectInPerimeterResources(cfg.resources, to);
      if fromIn != toIn {
        assert rows[i] in rows && Denies(rows[i], from, to, service);
        return true;
      }
    }
    denied := false;
  }

  ghost predicate Denied(enforce: bool, rows: seq<Row>, from: string, to: string, service: string) {
    enforce && TrimSpace(to) != "" && TrimSpace(service) != "" && exists row :: row in rows && Denies(row, TrimSpace(from), TrimSpace(to), TrimSpace(service))
  }

  /** The order of the rows does not matter, and between two projects neither does the direction. */
  lemma DenySymmetric(enforce: bool, rows: seq<Row>, rows': seq<Row>, from: string, to: string, service: string)
    requires TrimSpace(from) != "" && TrimSpace(to) != "" && forall row :: row in rows <==> row in rows'
    ensures Denied(enforce, rows, from, to, service) == Denied(enforce, rows', to, from, service)
  {
    forall row ensures Denies(row, TrimSpace(from), TrimSpace(to), TrimSpace(service)) == Denies(row, TrimSpace(to), TrimSpace(from), TrimSpace(service)) {}
    if Denied(enforce, rows, from, to, service) {
      var row :| row in rows && Denies(row, TrimSpace(from), TrimSpace(to), TrimSpace(service));
      assert row in rows' && Denies(row, TrimSpace(to), TrimSpace(from), TrimSpace(service));
    }
    if Denied(enforce, rows', to, from, service) {
      var row :| row in rows' && Denies(row, TrimSpace(to), TrimSpace(from), TrimSpace(service));
      assert row in rows && Denies(row, TrimSpace(from), TrimSpace(to), TrimSpace(service));
    }
  }

  lemma InsideSame(resources: seq<string>, a: string, b: string)
    requires Simple(a) && Simple(b) && Canonical(a) == Canonical(b) && forall r :: r in resources ==> Simple(r)
    ensures Inside(resources, a) == Inside(resources, b)
  {
    SimpleBare(a);
    SimpleBare(b);
    forall r | r in resources ensures Listed(r, a) == Listed(r, b) {
      ListedIsSameNumber(r, a);
      ListedIsSameNumber(r, b);
    }
  }

  /** Two spellings of one project are never on different sides of a perimeter, so a well-formed perimeter
      never denies a project access to itself. */
  lemma SameProjectAllowed(row: Row, from: string, to: string, service: string)
    requires Active(row).Config? && (forall r :: r in Active(row).resources ==> Simple(r))
    requires Simple(from) && Simple(to) && Canonical(from) == Canonical(to)
    ensures !Denies(row, from, to, service)
  {
    InsideSame(Active(row).resources, from, to);
  }
}
