/** Where object bytes live on disk: the path an object name is turned into. */
module GcsPaths {
  import opened Basics
  import opened Text

  const EMPTY_NAME: string := "_object"

  /** A path segment that survives sanitizing. */
  predicate Kept(segment: string) {
    segment != "" && segment != "." && segment != ".."
  }

  function Slashes(name: string): (r: string)
    ensures |r| == |name| && forall i :: 0 <= i < |r| ==> r[i] == if name[i] == '\\' then '/' else name[i]
  {
    seq(|name|, i requires 0 <= i < |name| => if name[i] == '\\' then '/' else name[i])
  }

  function KeptSegments(name: string): seq<string> {
    Filter(Split(Slashes(name), "/"), Kept)
  }

  /** The path below the generation directory, one segment at a time. */
  function Segments(name: string): (r: seq<string>)
    ensures |r| >= 1
  {
    var clean := KeptSegments(name);
    if clean == [] then [EMPTY_NAME] else clean
  }

  function Sanitize(name: string): string {
    Join(Segments(name), "/")
  }

  method SanitizeObjectPath(name: string) returns (r: string)
    ensures r == Sanitize(name)
  {
    var parts := Split(Slashes(name), "/");
    var clean: seq<string> := [];
    for i := 0 to |parts|
      invariant clean == Filter(parts[..i], Kept)
    {
      assert parts[..i + 1] == parts[..i] + [parts[i]];
      FilterAppend(parts[..i], [parts[i]], Kept);
      assert [parts[i]][1..] == [];
      if parts[i] == "" || parts[i] == "." || parts[i] == ".." { continue; }
      clean := clean + [parts[i]];
    }
    assert parts[..|parts|] == parts;
    if |clean| == 0 { return EMPTY_NAME; }
    r := Join(clean, "/");
  }

  // ---------- canonical names ----------

  /** A name that is already a relative path: no backslash, and no empty, `.` or `..` segment. */
  predicate Canonical(name: string) {
    '\\' !in name && forall p :: p in Split(name, "/") ==> Kept(p)
  }

  lemma {:induction false} SplitPartsFree(s: string)
    ensures forall p :: p in Split(s, "/") ==> '/' !in p && forall c :: c in p ==> c in s
    decreases |s|
  {
    var i := Index(s, "/");
    if i < 0 {
      ContainsChar(s, '/');
    } else {
      IndexFirst(s, "/");
      SplitPartsFree(s[i + 1..]);
      forall c | c in s[..i] ensures c != '/' && c in s {
        var j :| 0 <= j < i && s[j] == c;
        AtChar(s, j, '/');
      }
    }
  }

  lemma {:induction false} FilterAll(parts: seq<string>)
    requires forall p :: p in parts ==> Kept(p)
    ensures Filter(parts, Kept) == parts
  {
    if parts != [] {
      FilterAll(parts[1..]);
      assert parts == [parts[0]] + parts[1..];
    }
  }

  lemma KeptSegmentsAre(name: string)
    ensures forall p :: p in Segments(name) ==> Kept(p) && '/' !in p && '\\' !in p
  {
    SplitPartsFree(Slashes(name));
    assert '\\' !in Slashes(name);
  }

  lemma SlashesId(name: string)
    requires '\\' !in name
    ensures Slashes(name) == name
  {
  }

  lemma CanonicalSegments(name: string)
    requires Canonical(name)
    ensures Segments(name) == Split(name, "/") && Sanitize(name) == name
  {
    SlashesId(name);
    FilterAll(Split(name, "/"));
    JoinSplit(name, "/");
  }

  lemma {:induction false} JoinFree(parts: seq<string>, c: char)
    requires forall p :: p in parts ==> c !in p
    requires c != '/'
    ensures c !in Join(parts, "/")
  {
    if |parts| > 1 { JoinFree(parts[1..], c); }
  }

  /** Splitting a sanitized name gives its segments back. */
  lemma SanitizedSegments(name: string)
    ensures Split(Sanitize(name), "/") == Segments(name) && Canonical(Sanitize(name))
  {
    KeptSegmentsAre(name);
    var parts := Segments(name);
    forall i | 0 <= i < |parts| ensures Clean(parts[i], "/") { CleanChar(parts[i], '/'); }
    SplitJoin(parts, "/");
    JoinFree(parts, '\\');
  }

  /** Sanitizing leaves a name alone exactly when it is canonical, and its result always is. */
  lemma SanitizeNormalForm(name: string)
    ensures Sanitize(name) == name <==> Canonical(name)
    ensures Sanitize(Sanitize(name)) == Sanitize(name)
  {
    SanitizedSegments(name);
    CanonicalSegments(Sanitize(name));
    if Canonical(name) { CanonicalSegments(name); }
  }

  /** A name with nothing to keep is stored under a fixed one. */
  lemma NamelessPath(name: string)
    requires forall p :: p in Split(Slashes(name), "/") ==> p == "" || p == "." || p == ".."
    ensures Sanitize(name) == "_object"
  {
    FirstIn(KeptSegments(name));
  }

  lemma FirstIn<T>(s: seq<T>)
    ensures s != [] ==> s[0] in s
  {
  }

  /** Names share a path exactly when they sanitize to the same text; canonical names only when equal. */
  lemma SharedPath(a: string, b: string)
    ensures Segments(a) == Segments(b) <==> Sanitize(a) == Sanitize(b)
    ensures Canonical(a) && Canonical(b) && Segments(a) == Segments(b) ==> a == b
  {
    SanitizedSegments(a);
    SanitizedSegments(b);
    if Canonical(a) && Canonical(b) {
      CanonicalSegments(a);
      CanonicalSegments(b);
    }
  }

  // ---------- bucket names ----------

  predicate LowerAlnum(c: char) {
    'a' <= c <= 'z' || '0' <= c <= '9'
  }

  predicate ValidBucketName(name: string) {
    && 3 <= |name| <= 63 && !Contains(name, "..")
    && LowerAlnum(name[0]) && LowerAlnum(name[|name| - 1])
    && forall i :: 0 <= i < |name| ==> LowerAlnum(name[i]) || name[i] in "._-"
  }
}
