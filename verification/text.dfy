/** The parts of Go's `strings` package that the store relies on, with the laws that
    relate them: searching, splitting and joining, trimming, and the byte order that
    SQLite and `sort.Strings` both use. */
module Text {

  // ---------- searching ----------

  /** `sep` occurs in `s` at position `i`. */
  predicate At(s: string, i: int, sep: string) {
    0 <= i && i + |sep| <= |s| && s[i..i + |sep|] == sep
  }

  /** strings.Index: the first position of `sep` in `s`, or -1. */
  function Index(s: string, sep: string): (i: int)
    ensures -1 <= i && i + |sep| <= |s| + |sep|
    ensures 0 <= i ==> i + |sep| <= |s|
  {
    if sep <= s then 0
    else if s == [] then -1
    else
      var k := Index(s[1..], sep);
      if k < 0 then -1 else k + 1
  }

  lemma AtShift(s: string, j: int, sep: string)
    requires s != "" && 1 <= j
    ensures At(s, j, sep) == At(s[1..], j - 1, sep)
  {
    if j + |sep| <= |s| {
      var k := j - 1;
      assert s[1..][k..k + |sep|] == s[k + 1..k + 1 + |sep|];
    }
  }

  lemma AtStart(s: string, sep: string)
    ensures At(s, 0, sep) == (sep <= s)
  {
  }

  lemma {:induction false} IndexFirst(s: string, sep: string)
    ensures var i := Index(s, sep);
            && (0 <= i ==> At(s, i, sep) && forall j :: 0 <= j < i ==> !At(s, j, sep))
            && (i < 0 ==> forall j :: !At(s, j, sep))
  {
    AtStart(s, sep);
    if !(sep <= s) && s != [] {
      IndexFirst(s[1..], sep);
      forall j | 1 <= j ensures At(s, j, sep) == At(s[1..], j - 1, sep) { AtShift(s, j, sep); }
    }
  }

  predicate Contains(s: string, sep: string) {
    Index(s, sep) >= 0
  }

  lemma IndexIs(s: string, sep: string, i: int)
    requires At(s, i, sep)
    requires forall j :: 0 <= j < i ==> !At(s, j, sep)
    ensures Index(s, sep) == i
  {
    IndexFirst(s, sep);
  }

  lemma AtChar(s: string, j: int, c: char)
    ensures At(s, j, [c]) <==> 0 <= j < |s| && s[j] == c
  {
    if 0 <= j < |s| { assert s[j..j + 1] == [s[j]]; }
  }

  lemma ContainsChar(s: string, c: char)
    ensures Contains(s, [c]) <==> c in s
  {
    IndexFirst(s, [c]);
    var i := Index(s, [c]);
    if i >= 0 { AtChar(s, i, c); }
    if c in s {
      var j :| 0 <= j < |s| && s[j] == c;
      AtChar(s, j, c);
    }
  }

  /** Cutting a text at the first occurrence of a character. */
  lemma CutAt(a: string, c: char, b: string)
    requires c !in a
    ensures var s := a + [c] + b; Index(s, [c]) == |a| && s[..|a|] == a && s[|a| + 1..] == b
  {
    var s := a + [c] + b;
    AtChar(s, |a|, c);
    forall j | 0 <= j < |a| ensures !At(s, j, [c]) {
      AtChar(s, j, c);
      assert s[j] == a[j];
    }
    IndexIs(s, [c], |a|);
  }

  predicate HasSuffix(s: string, suffix: string) {
    |suffix| <= |s| && s[|s| - |suffix|..] == suffix
  }

  function TrimSuffix(s: string, suffix: string): string {
    if HasSuffix(s, suffix) then s[..|s| - |suffix|] else s
  }

  function TrimPrefix(s: string, p: string): string {
    if p <= s then s[|p|..] else s
  }

  // ---------- splitting and joining ----------

  /** strings.Split for a non-empty separator. */
  function Split(s: string, sep: string): (parts: seq<string>)
    requires sep != ""
    ensures |parts| >= 1
    decreases |s|
  {
    var i := Index(s, sep);
    if i < 0 then [s] else [s[..i]] + Split(s[i + |sep|..], sep)
  }

  /** strings.Join. */
  function Join(parts: seq<string>, sep: string): string {
    if |parts| == 0 then ""
    else if |parts| == 1 then parts[0]
    else parts[0] + sep + Join(parts[1..], sep)
  }

  lemma JoinCons(p: string, parts: seq<string>, sep: string)
    requires |parts| >= 1
    ensures Join([p] + parts, sep) == p + sep + Join(parts, sep)
  {
    assert ([p] + parts)[1..] == parts;
  }

  /** `part` can stand before `sep` without the separator being found any earlier. */
  predicate Clean(part: string, sep: string) {
    Index(part + sep, sep) == |part|
  }

  lemma IndexOfClean(part: string, sep: string, tail: string)
    requires sep != "" && Clean(part, sep)
    ensures Index(part + sep + tail, sep) == |part|
    ensures !Contains(part, sep)
  {
    var s := part + sep + tail;
    IndexFirst(part + sep, sep);
    assert s[|part|..|part| + |sep|] == sep;
    forall j | 0 <= j < |part| ensures !At(s, j, sep) {
      assert !At(part + sep, j, sep);
      assert s[j..j + |sep|] == (part + sep)[j..j + |sep|];
    }
    IndexIs(s, sep, |part|);
    NotWithin(part, sep);
  }

  /** A separator found in `part` would be found before the one after it. */
  lemma NotWithin(part: string, sep: string)
    requires sep != "" && Clean(part, sep)
    ensures !Contains(part, sep)
  {
    IndexFirst(part, sep);
    IndexFirst(part + sep, sep);
    var k := Index(part, sep);
    assert k >= 0 ==> (part + sep)[k..k + |sep|] == part[k..k + |sep|];
    assert k >= 0 ==> At(part + sep, k, sep);
  }

  /** A part free of a one-character separator is clean. */
  lemma CleanChar(part: string, c: char)
    requires c !in part
    ensures Clean(part, [c])
  {
    forall j | 0 <= j < |part| ensures !At(part + [c], j, [c]) {
      assert (part + [c])[j..j + 1] == [part[j]];
    }
    assert (part + [c])[|part|..|part| + 1] == [c];
    IndexIs(part + [c], [c], |part|);
  }

  /** A part that does not contain the separator and whose last character does not
      occur in it is clean. */
  lemma CleanEnd(part: string, sep: string)
    requires sep != "" && part != "" && !Contains(part, sep)
    requires part[|part| - 1] !in sep
    ensures Clean(part, sep)
  {
    var s := part + sep;
    IndexFirst(part, sep);
    forall j | 0 <= j < |part| ensures !At(s, j, sep) {
      if j + |sep| <= |part| {
        assert s[j..j + |sep|] == part[j..j + |sep|];
        assert !At(part, j, sep);
      } else if j + |sep| <= |s| {
        assert s[j..j + |sep|][|part| - 1 - j] == part[|part| - 1];
      }
    }
    assert s[|part|..|part| + |sep|] == sep;
    IndexIs(s, sep, |part|);
  }

  /** Joining what Split returns gives the text back. */
  lemma {:induction false} JoinSplit(s: string, sep: string)
    requires sep != ""
    ensures Join(Split(s, sep), sep) == s
    decreases |s|
  {
    var i := Index(s, sep);
    if i >= 0 {
      Cut(s, sep);
      JoinSplit(s[i + |sep|..], sep);
      JoinCons(s[..i], Split(s[i + |sep|..], sep), sep);
    }
  }

  lemma Cut(s: string, sep: string)
    requires Contains(s, sep)
    ensures var i := Index(s, sep); s == s[..i] + sep + s[i + |sep|..]
  {
    IndexFirst(s, sep);
    var i := Index(s, sep);
    assert s == s[..i] + s[i..i + |sep|] + s[i + |sep|..];
  }

  lemma SplitCons(part: string, sep: string, tail: string)
    requires sep != "" && Clean(part, sep)
    ensures Split(part + sep + tail, sep) == [part] + Split(tail, sep)
  {
    IndexOfClean(part, sep, tail);
    var s := part + sep + tail;
    assert s[..|part|] == part && s[|part| + |sep|..] == tail;
  }

  /** Splitting what Join made gives the parts back, if the parts are clean. */
  lemma {:induction false} SplitJoin(parts: seq<string>, sep: string)
    requires sep != "" && |parts| >= 1
    requires forall i :: 0 <= i < |parts| ==> Clean(parts[i], sep)
    ensures Split(Join(parts, sep), sep) == parts
    decreases |parts|
  {
    if |parts| == 1 {
      IndexOfClean(parts[0], sep, "");
    } else {
      SplitCons(parts[0], sep, Join(parts[1..], sep));
      SplitJoin(parts[1..], sep);
    }
  }

  /** A text with `c` in it, cut at the first one. */
  lemma FirstCut(a: string, c: char) returns (head: string, tail: string)
    requires c in a
    ensures a == head + [c] + tail && c !in head && |tail| < |a|
  {
    var i := Index(a, [c]);
    IndexFirst(a, [c]);
    ContainsChar(a, c);
    AtChar(a, i, c);
    forall k | 0 <= k < i ensures a[k] != c { AtChar(a, k, c); }
    head, tail := a[..i], a[i + 1..];
    assert a == a[..i] + [a[i]] + a[i + 1..];
  }

  lemma Regroup<T>(a: seq<T>, b: seq<T>, c: seq<T>)
    ensures a + b + c == a + (b + c)
  {
  }

  lemma SplitConcatCons(head: string, sep: string, tail: string, b: string)
    requires sep != "" && Clean(head, sep) && Split(tail + sep + b, sep) == Split(tail, sep) + Split(b, sep)
    ensures Split(head + sep + (tail + sep + b), sep) == Split(head + sep + tail, sep) + Split(b, sep)
  {
    SplitCons(head, sep, tail);
    SplitCons(head, sep, tail + sep + b);
    Regroup([head], Split(tail, sep), Split(b, sep));
  }

  lemma RegroupTail(head: string, sep: string, tail: string, b: string)
    ensures head + sep + tail + sep + b == head + sep + (tail + sep + b)
  {
  }

  /** Splitting at a character distributes over joining with it. */
  lemma {:induction false} SplitConcat(a: string, c: char, b: string)
    ensures Split(a + [c] + b, [c]) == Split(a, [c]) + Split(b, [c])
    decreases |a|
  {
    if c in a {
      var head, tail := FirstCut(a, c);
      CleanChar(head, c);
      SplitConcat(tail, c, b);
      SplitConcatCons(head, [c], tail, b);
      RegroupTail(head, [c], tail, b);
    } else {
      ContainsChar(a, c);
      CleanChar(a, c);
      SplitCons(a, [c], b);
    }
  }

  lemma {:induction false} JoinConcat(a: seq<string>, b: seq<string>, sep: string)
    requires a != [] && b != []
    ensures Join(a + b, sep) == Join(a, sep) + sep + Join(b, sep)
    decreases |a|
  {
    if |a| == 1 {
      JoinCons(a[0], b, sep);
      assert a == [a[0]];
    } else {
      JoinConcat(a[1..], b, sep);
      JoinCons(a[0], a[1..] + b, sep);
      assert a + b == [a[0]] + (a[1..] + b);
    }
  }

  // ---------- white space ----------

  /** unicode.IsSpace. */
  predicate IsSpace(c: char) {
    var n := c as int;
    9 <= n <= 13 || n == 0x20 || n == 0x85 || n == 0xA0 || n == 0x1680 || 0x2000 <= n <= 0x200A
    || n == 0x2028 || n == 0x2029 || n == 0x202F || n == 0x205F || n == 0x3000
  }

  predicate AllSpaces(s: string) {
    forall c :: c in s ==> IsSpace(c)
  }

  /** How many white-space characters `s` begins with. */
  function LeadingSpaces(s: string): (n: nat)
    ensures n <= |s|
  {
    if s != "" && IsSpace(s[0]) then 1 + LeadingSpaces(s[1..]) else 0
  }

  /** How long `s` is without the white space at its end. */
  function TrimmedLength(s: string): (n: nat)
    ensures n <= |s|
  {
    if s != "" && IsSpace(s[|s| - 1]) then TrimmedLength(s[..|s| - 1]) else |s|
  }

  function TrimLeft(s: string): string {
    s[LeadingSpaces(s)..]
  }

  function TrimRight(s: string): string {
    s[..TrimmedLength(s)]
  }

  /** strings.TrimSpace. */
  function TrimSpace(s: string): string {
    TrimRight(TrimLeft(s))
  }

  lemma {:induction false} LeadingSpacesMax(s: string)
    ensures forall i :: 0 <= i < LeadingSpaces(s) ==> IsSpace(s[i])
    ensures LeadingSpaces(s) < |s| ==> !IsSpace(s[LeadingSpaces(s)])
  {
    if s != "" && IsSpace(s[0]) { LeadingSpacesMax(s[1..]); }
  }

  lemma {:induction false} TrimmedLengthMin(s: string)
    ensures forall i :: TrimmedLength(s) <= i < |s| ==> IsSpace(s[i])
    ensures TrimmedLength(s) > 0 ==> !IsSpace(s[TrimmedLength(s) - 1])
  {
    if s != "" && IsSpace(s[|s| - 1]) { TrimmedLengthMin(s[..|s| - 1]); }
  }

  /** Trimmed text neither begins nor ends with white space, and only white space was removed. */
  lemma TrimSpaceTrims(s: string)
    ensures Trimmed(TrimSpace(s))
    ensures TrimSpace(s) == "" <==> AllSpaces(s)
  {
    LeadingSpacesMax(s);
    var t := TrimLeft(s);
    TrimmedLengthMin(t);
    if t != "" {
      assert t[0] == s[LeadingSpaces(s)] && t[0] in s;
      assert TrimmedLength(t) > 0;
    } else {
      assert LeadingSpaces(s) == |s|;
    }
  }

  predicate Trimmed(s: string) {
    s == "" || (!IsSpace(s[0]) && !IsSpace(s[|s| - 1]))
  }

  lemma TrimSpaceId(s: string)
    requires Trimmed(s)
    ensures TrimSpace(s) == s
  {
    assert s[0..] == s && s[..|s|] == s;
  }

  lemma {:induction false} LeadingBlank(a: string, t: string)
    requires AllSpaces(a) && (t == "" || !IsSpace(t[0]))
    ensures LeadingSpaces(a + t) == |a|
  {
    if a == "" {
      assert a + t == t;
    } else {
      assert a[0] in a && (a + t)[1..] == a[1..] + t;
      assert forall c :: c in a[1..] ==> c in a;
      LeadingBlank(a[1..], t);
    }
  }

  lemma {:induction false} TrailingBlank(t: string, e: string)
    requires AllSpaces(e) && (t == "" || !IsSpace(t[|t| - 1]))
    ensures TrimmedLength(t + e) == |t|
  {
    if e == "" {
      assert t + e == t;
    } else {
      var n := |e| - 1;
      assert e[n] in e && (t + e)[..|t| + n] == t + e[..n];
      assert forall c :: c in e[..n] ==> c in e;
      TrailingBlank(t, e[..n]);
    }
  }

  /** Trimming removes white space around trimmed text, */
  lemma TrimAround(a: string, t: string, e: string)
    requires AllSpaces(a) && AllSpaces(e) && Trimmed(t) && t != ""
    ensures TrimSpace(a + t + e) == t
  {
    assert a + t + e == a + (t + e);
    LeadingBlank(a, t + e);
    assert (a + (t + e))[|a|..] == t + e;
    TrailingBlank(t, e);
    assert (t + e)[..|t|] == t;
  }

  /** and there is nothing else around it. */
  lemma AroundTrimmed(s: string) returns (a: string, e: string)
    ensures AllSpaces(a) && AllSpaces(e) && s == a + TrimSpace(s) + e
  {
    LeadingSpacesMax(s);
    var t := TrimLeft(s);
    TrimmedLengthMin(t);
    a, e := s[..LeadingSpaces(s)], t[TrimmedLength(t)..];
    assert s == a + t && t == TrimSpace(s) + e;
  }

  lemma TrimmedAt(s: string, first: string, last: string, middle: string)
    requires s == first + middle + last && first != "" && last != "" && !IsSpace(first[0]) && !IsSpace(last[|last| - 1])
    ensures Trimmed(s) && s != ""
  {
    assert s[0] == first[0] && s[|s| - 1] == last[|last| - 1];
  }

  /** How many characters `s` begins with before the first white space. */
  function WordLength(s: string): (n: nat)
    ensures n <= |s|
    ensures s != "" && !IsSpace(s[0]) ==> n > 0
  {
    if s == "" || IsSpace(s[0]) then 0 else 1 + WordLength(s[1..])
  }

  /** strings.Fields: the maximal runs of non-space characters. */
  function Fields(s: string): seq<string>
    decreases |s|
  {
    LeadingSpacesMax(s);
    var t := TrimLeft(s);
    if t == "" then []
    else
      var n := WordLength(t);
      [t[..n]] + Fields(t[n..])
  }

  // ---------- byte order ----------

  /** Strict lexicographic order. Code point order is the byte order of UTF-8, which is
      what SQLite's BINARY collation and Go's string comparison use. */
  predicate Less(a: string, b: string) {
    if b == "" then false
    else if a == "" then true
    else if a[0] != b[0] then a[0] < b[0]
    else Less(a[1..], b[1..])
  }

  lemma {:induction false} LessIrreflexive(a: string)
    ensures !Less(a, a)
  {
    if a != "" { LessIrreflexive(a[1..]); }
  }

  lemma {:induction false} LessTransitive(a: string, b: string, c: string)
    requires Less(a, b) && Less(b, c)
    ensures Less(a, c)
  {
    if a != "" && a[0] == b[0] == c[0] { LessTransitive(a[1..], b[1..], c[1..]); }
  }

  lemma {:induction false} LessTotal(a: string, b: string)
    ensures Less(a, b) || a == b || Less(b, a)
  {
    if a != "" && b != "" && a[0] == b[0] {
      LessTotal(a[1..], b[1..]);
      assert a[1..] == b[1..] ==> a == [a[0]] + b[1..];
    }
  }

  lemma LessAsymmetric(a: string, b: string)
    requires Less(a, b)
    ensures !Less(b, a) && a != b
  {
    LessIrreflexive(a);
    if Less(b, a) { LessTransitive(a, b, a); }
  }
}
