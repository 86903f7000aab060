/** Which projects a perimeter can tell apart, and what its rows decide. */
module PerimeterIds {
  import opened Basics
  import opened Text
  import opened Decimal
  import opened Perimeter

  // ---------- short ids ----------

  /** ASCII characters other than NUL. */
  predicate PlainAscii(s: string) {
    forall c :: c in s ==> 1 <= c as nat < 128
  }

  function Codes(s: string): (r: seq<nat>)
    ensures |r| == |s| && forall i :: 0 <= i < |r| ==> r[i] == s[i] as nat
  {
    seq(|s|, i requires 0 <= i < |s| => s[i] as nat)
  }

  lemma {:induction false} AsciiEncodes(s: string)
    requires PlainAscii(s)
    ensures Encode(s) == Codes(s)
  {
    if s != "" {
      assert s[0] in s && forall c :: c in s[1..] ==> c in s;
      AsciiEncodes(s[1..]);
      assert Codes(s) == [s[0] as nat] + Codes(s[1..]);
    }
  }

  /** Digits of a number in base 131, none of them zero. */
  predicate Digits131(bytes: seq<nat>) {
    forall i :: 0 <= i < |bytes| ==> 1 <= bytes[i] < 131
  }

  lemma LastDigit(p: nat, q: nat, a: nat, b: nat)
    requires a < 131 && b < 131 && p * 131 + a == q * 131 + b
    ensures p == q && a == b
  {
  }

  /** A number has one way to be written without zeros. */
  lemma {:induction false} PolynomialInjective(a: seq<nat>, b: seq<nat>)
    requires Digits131(a) && Digits131(b) && Polynomial(a) == Polynomial(b)
    ensures a == b
    decreases |a|
  {
    if a != [] && b != [] {
      var m, n := |a| - 1, |b| - 1;
      LastDigit(Polynomial(a[..m]), Polynomial(b[..n]), a[m], b[n]);
      PolynomialInjective(a[..m], b[..n]);
      assert a == a[..m] + [a[m]] && b == b[..n] + [b[n]];
    }
  }

  lemma {:induction false} PolynomialGrows(bytes: seq<nat>)
    requires Digits131(bytes) && |bytes| <= 5
    ensures bytes != [] ==> Polynomial(bytes) >= 1
    ensures Polynomial(bytes) < [1, 131, 17_161, 2_248_091, 294_499_921, 38_579_489_651][|bytes|]
    decreases |bytes|
  {
    if bytes != [] { PolynomialGrows(bytes[..|bytes| - 1]); }
  }

  lemma SmallFolds(n: nat)
    requires 1 <= n < TRILLION
    ensures Folded(n % TWO64) == n
  {
  }

  lemma CodesAreDigits(id: string)
    requires PlainAscii(id)
    ensures Digits131(Codes(id))
  {
    assert forall i :: 0 <= i < |id| ==> id[i] in id;
  }

  lemma ShortNumber(id: string)
    requires PlainAscii(id) && 1 <= |id| <= 5 && Trimmed(id)
    ensures ProjectNumber(id) == Itoa(Polynomial(Codes(id)))
  {
    TrimSpaceId(id);
    AsciiEncodes(id);
    CodesAreDigits(id);
    PolynomialGrows(Codes(id));
    SmallFolds(Polynomial(Codes(id)));
  }

  /** Different ids of at most five ASCII characters have different numbers. */
  lemma ShortIdsDiffer(a: string, b: string)
    requires PlainAscii(a) && 1 <= |a| <= 5 && Trimmed(a) && PlainAscii(b) && 1 <= |b| <= 5 && Trimmed(b)
    ensures ProjectNumber(a) == ProjectNumber(b) <==> a == b
  {
    ShortNumber(a);
    ShortNumber(b);
    ValueOfItoa(Polynomial(Codes(a)));
    ValueOfItoa(Polynomial(Codes(b)));
    if Polynomial(Codes(a)) == Polynomial(Codes(b)) {
      CodesAreDigits(a);
      CodesAreDigits(b);
      PolynomialInjective(Codes(a), Codes(b));
      assert forall i :: 0 <= i < |a| ==> a[i] as nat == Codes(a)[i] == b[i] as nat;
    }
  }

  /** So two such ids name the same project only if they are equal, unless one is itself a number. */
  lemma ShortIdsMatch(a: string, b: string)
    requires PlainAscii(a) && 1 <= |a| <= 5 && Trimmed(a) && PlainAscii(b) && 1 <= |b| <= 5 && Trimmed(b)
    requires !IsNumber(a) && !IsNumber(b)
    ensures RefsMatch(a, b) <==> a == b
    ensures RefsMatch("projects/" + a, b) <==> a == b
  {
    ShortIdsDiffer(a, b);
    BareOfShort(a);
    BareOfShort(b);
    MatchIsSameNumber(a, b);
    MatchIsSameNumber("projects/" + a, b);
  }

  lemma BareOfShort(a: string)
    requires 1 <= |a| <= 5 && Trimmed(a)
    ensures Bare(a) == a && Bare("projects/" + a) == a
  {
    TrimSpaceId(a);
    TrimSpaceId("projects/" + a);
    assert |PREFIX| == 9;
    assert ("projects/" + a)[|PREFIX|..] == a;
  }

  /** A number written in digits stands for itself only. */
  lemma NumbersMatch(a: string, b: string)
    requires IsNumber(a) && IsNumber(b)
    ensures RefsMatch(a, b) <==> a == b
  {
    NumberIsBare(a);
    NumberIsBare(b);
  }

  lemma NumberIsBare(a: string)
    requires IsNumber(a)
    ensures Bare(a) == a
  {
    assert IsDigit(a[0]) && IsDigit(a[|a| - 1]);
    TrimSpaceId(a);
    assert PREFIX[0] == 'p';
  }

  /** NUL counts as a leading zero: without it ids of one character can share a number. */
  lemma NulCollides()
    ensures ProjectNumber("\U{0}") == ProjectNumber("\U{1}")
  {
    TrimSpaceId("\U{0}");
    TrimSpaceId("\U{1}");
    assert Encode("\U{0}") == [0] && Encode("\U{1}") == [1];
    assert Polynomial([0]) == 0 && Polynomial([1]) == 1 by { assert [0][..0] == [] && [1][..0] == []; }
  }

  // ---------- the bytes of an id ----------

  /** The number of bytes of a character can be read off the first one. */
  function RuneLength(first: nat): nat {
    if first < 0x80 then 1 else if first < 0xE0 then 2 else if first < 0xF0 then 3 else 4
  }

  lemma RuneShape(c: char)
    ensures var r := EncodeRune(c);
            |r| == RuneLength(r[0]) && (forall i :: 0 <= i < |r| ==> r[i] < 256) && forall i :: 1 <= i < |r| ==> 0x80 <= r[i] < 0xC0
  {
  }

  function DecodeRune(r: seq<nat>): int
    requires 1 <= |r| <= 4
  {
    if |r| == 1 then r[0]
    else if |r| == 2 then (r[0] as int - 0xC0) * 0x40 + (r[1] as int - 0x80)
    else if |r| == 3 then (r[0] as int - 0xE0) * 0x1000 + (r[1] as int - 0x80) * 0x40 + (r[2] as int - 0x80)
    else (r[0] as int - 0xF0) * 0x4_0000 + (r[1] as int - 0x80) * 0x1000 + (r[2] as int - 0x80) * 0x40 + (r[3] as int - 0x80)
  }

  lemma SixBits(n: nat)
    ensures n == n / 0x40 * 0x40 + n % 0x40
    ensures n / 0x1000 == n / 0x40 / 0x40 && n / 0x4_0000 == n / 0x1000 / 0x40
    ensures n / 0x40 == n / 0x1000 * 0x40 + n / 0x40 % 0x40 && n / 0x1000 == n / 0x4_0000 * 0x40 + n / 0x1000 % 0x40
  {
  }

  lemma FromSixBits(n: int, a: int, b: int, c: int, d: int)
    requires n == (((a * 0x40) + b) * 0x40 + c) * 0x40 + d
    ensures n == a * 0x4_0000 + b * 0x1000 + c * 0x40 + d
  {
  }

  /** Section 3 of RFC 3629: six bits in each following byte, the rest in the first. */
  lemma RuneDecodes(c: char)
    ensures DecodeRune(EncodeRune(c)) == c as int
  {
    var n := c as nat;
    SixBits(n);
    FromSixBits(n, n / 0x4_0000, n / 0x1000 % 0x40, n / 0x40 % 0x40, n % 0x40);
  }

  lemma RuneFirst(c: char, rest: seq<nat>)
    ensures var s := EncodeRune(c) + rest; s != [] && |s| >= RuneLength(s[0]) && s[..RuneLength(s[0])] == EncodeRune(c) && s[RuneLength(s[0])..] == rest
  {
    RuneShape(c);
  }

  /** Different ids have different bytes. */
  lemma {:induction false} EncodeInjective(a: string, b: string)
    requires Encode(a) == Encode(b)
    ensures a == b
  {
    if a != "" { RuneFirst(a[0], Encode(a[1..])); }
    if b != "" { RuneFirst(b[0], Encode(b[1..])); }
    if a != "" && b != "" {
      RuneDecodes(a[0]);
      RuneDecodes(b[0]);
      EncodeInjective(a[1..], b[1..]);
      assert a == [a[0]] + a[1..] && b == [b[0]] + b[1..];
    }
  }

  // ---------- rows ----------

  /** Some resource of the row is of the project. */
  ghost predicate Holds(resources: seq<string>, project: string) {
    exists r :: r in resources && Canonical(r) == Canonical(project)
  }

  ghost predicate ServiceListed(services: seq<string>, service: string) {
    exists s :: s in services && TrimSpace(s) == service
  }

  /** A readable row denies exactly when it restricts the service and holds one of the two projects but not the
      other. */
  lemma RowDecides(row: Row, from: string, to: string, service: string)
    requires row.status.Config? && (forall r :: r in row.status.resources ==> Simple(r)) && Simple(from) && Simple(to)
    ensures Denies(row, from, to, service) <==>
              ServiceListed(row.status.services, service) && Holds(row.status.resources, from) != Holds(row.status.resources, to)
  {
    HoldsIsInside(row.status.resources, from);
    HoldsIsInside(row.status.resources, to);
  }

  lemma HoldsIsInside(resources: seq<string>, project: string)
    requires (forall r :: r in resources ==> Simple(r)) && Simple(project)
    ensures Inside(resources, project) <==> Holds(resources, project)
  {
    SimpleBare(project);
    forall r | r in resources ensures Listed(r, project) <==> Canonical(r) == Canonical(project) { ListedIsSameNumber(r, project); }
  }

  /** A dry-run spec counts exactly when it is explicit and the row has no status; a row with neither decides
      nothing, and what cannot be read denies. */
  lemma DryRunCounts(row: Row, from: string, to: string, service: string)
    ensures row.status.Absent? && row.dryRun ==> (Denies(row, from, to, service) <==> Denies(Row(row.spec, Absent, false), from, to, service))
    ensures row.status.Absent? && !row.dryRun ==> !Denies(row, from, to, service)
    ensures row.status.Absent? && row.spec.Absent? ==> !Denies(row, from, to, service)
    ensures !row.status.Absent? ==> (Denies(row, from, to, service) <==> Denies(Row(row.status, Absent, false), from, to, service))
    ensures row.status.Broken? ==> Denies(row, from, to, service)
  {
  }
}
