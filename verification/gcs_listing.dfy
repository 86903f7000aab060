/** Listing with a delimiter: how live object names are split into items and common prefixes. */
module GcsListing {
  import opened Basics
  import opened Text
  import opened Ordering

  datatype Listing = Listing(items: seq<string>, prefixes: seq<string>)

  /** The common prefix a name collapses into, if any. The name begins with `prefix`. */
  function Group(name: string, prefix: string, delimiter: string): Option<string>
    requires prefix <= name
  {
    var rest := name[|prefix|..];
    var i := Index(rest, delimiter);
    if delimiter == "" || i < 0 then None else Some(prefix + rest[..i + |delimiter|])
  }

  /** One more name after the ones listed so far. */
  function Extend(out: Listing, name: string, prefix: string, delimiter: string): Listing {
    if !(prefix <= name) then out
    else
      match Group(name, prefix, delimiter)
      case None => out.(items := out.items + [name])
      case Some(common) => if common in out.prefixes then out else out.(prefixes := out.prefixes + [common])
  }

  function ListNames(names: seq<string>, prefix: string, delimiter: string): Listing {
    if names == [] then Listing([], [])
    else Extend(ListNames(names[..|names| - 1], prefix, delimiter), names[|names| - 1], prefix, delimiter)
  }

  /** The loop over the rows, already in name order. */
  method ListObjectsDelimited(names: seq<string>, prefix: string, delimiter: string) returns (out: Listing)
    ensures out == ListNames(names, prefix, delimiter)
  {
    var items: seq<string>, prefixes: seq<string> := [], [];
    var prefixSet: set<string> := {};
    for k := 0 to |names|
      invariant Listing(items, prefixes) == ListNames(names[..k], prefix, delimiter)
      invariant forall p :: p in prefixSet <==> p in prefixes
    {
      assert names[..k + 1][..k] == names[..k];
      var name := names[k];
      if prefix != "" && !(prefix <= name) { continue; }
      if delimiter == "" {
        items := items + [name];
        continue;
      }
      var rest := TrimPrefix(name, prefix);
      var i := Index(rest, delimiter);
      if i >= 0 {
        var common := prefix + rest[..i + |delimiter|];
        if common !in prefixSet {
          prefixSet := prefixSet + {common};
          prefixes := prefixes + [common];
        }
        continue;
      }
      items := items + [name];
    }
    assert names[..|names|] == names;
    out := Listing(items, prefixes);
  }

  // ---------- which names share a common prefix ----------

  /** `p` continues `prefix` up to and including the first delimiter after it. */
  predicate IsGroup(p: string, prefix: string, delimiter: string) {
    && prefix <= p
    && var rest := p[|prefix|..];
    Index(rest, delimiter) == |rest| - |delimiter|
  }

  /** Text that continues past the first occurrence of a delimiter has it at the same place. */
  lemma IndexOfExtension(a: string, b: string, delimiter: string)
    requires delimiter != "" && Index(a, delimiter) == |a| - |delimiter| && |delimiter| <= |a|
    ensures Index(a + b, delimiter) == |a| - |delimiter|
  {
    IndexFirst(a, delimiter);
    var i := |a| - |delimiter|;
    assert (a + b)[i..i + |delimiter|] == a[i..i + |delimiter|];
    forall j | 0 <= j < i ensures !At(a + b, j, delimiter) {
      assert !At(a, j, delimiter);
      assert (a + b)[j..j + |delimiter|] == a[j..j + |delimiter|];
    }
    IndexIs(a + b, delimiter, i);
  }

  lemma CutAfterFirst(s: string, delimiter: string)
    requires delimiter != "" && Contains(s, delimiter)
    ensures var i := Index(s, delimiter); Index(s[..i + |delimiter|], delimiter) == i
  {
    IndexFirst(s, delimiter);
    var i := Index(s, delimiter);
    var a := s[..i + |delimiter|];
    assert a[i..i + |delimiter|] == s[i..i + |delimiter|];
    forall j | 0 <= j < i ensures !At(a, j, delimiter) {
      assert !At(s, j, delimiter);
      if j + |delimiter| <= |a| { assert a[j..j + |delimiter|] == s[j..j + |delimiter|]; }
    }
    IndexIs(a, delimiter, i);
  }

  /** A name collapses into `p` exactly when `p` is a prefix of it that ends with the first delimiter. */
  lemma GroupIs(name: string, prefix: string, delimiter: string, p: string)
    requires prefix <= name && delimiter != ""
    ensures Group(name, prefix, delimiter) == Some(p) <==> IsGroup(p, prefix, delimiter) && p <= name && |p| >= |prefix| + |delimiter|
  {
    var rest := name[|prefix|..];
    if Group(name, prefix, delimiter) == Some(p) {
      CutAfterFirst(rest, delimiter);
      assert p[|prefix|..] == rest[..Index(rest, delimiter) + |delimiter|];
      assert name == prefix + rest;
    }
    if IsGroup(p, prefix, delimiter) && p <= name && |p| >= |prefix| + |delimiter| {
      var a := p[|prefix|..];
      assert rest == a + name[|p|..];
      IndexOfExtension(a, name[|p|..], delimiter);
      assert p == prefix + a && rest[..|a|] == a;
    }
  }

  /** Two groups of the same prefix that both begin one name are the same group. */
  lemma OneGroup(name: string, prefix: string, delimiter: string, p: string, q: string)
    requires delimiter != "" && prefix <= name
    requires Group(name, prefix, delimiter) == Some(p)
    requires IsGroup(q, prefix, delimiter) && |q| >= |prefix| + |delimiter| && q <= name
    ensures p == q
  {
    GroupIs(name, prefix, delimiter, q);
  }

  // ---------- order ----------

  /** Texts that differ within their first parts compare as those parts do. */
  lemma {:induction false} LessExtends(a: string, b: string, x: string, y: string)
    requires Less(a, b) && !(a <= b)
    ensures Less(a + x, b + y)
  {
    if a != "" && b != "" {
      assert (a + x)[1..] == a[1..] + x && (b + y)[1..] == b[1..] + y;
      if a[0] == b[0] {
        assert a == [a[0]] + a[1..] && b == [b[0]] + b[1..];
        LessExtends(a[1..], b[1..], x, y);
      }
    }
  }

  /** Groups come in the order of the names that collapse into them. */
  lemma GroupMonotone(x: string, y: string, prefix: string, delimiter: string, p: string, q: string)
    requires delimiter != "" && prefix <= x && prefix <= y && Less(x, y)
    requires Group(x, prefix, delimiter) == Some(p) && Group(y, prefix, delimiter) == Some(q)
    ensures p == q || Less(p, q)
  {
    GroupIs(x, prefix, delimiter, p);
    GroupIs(y, prefix, delimiter, q);
    LessTotal(p, q);
    if Less(q, p) {
      if q <= p {
        OneGroup(x, prefix, delimiter, p, q);
      } else {
        LessExtends(q, p, y[|q|..], x[|p|..]);
        assert q + y[|q|..] == y && p + x[|p|..] == x;
        LessAsymmetric(x, y);
      }
    }
  }

  // ---------- what a listing contains ----------

  /** The listing of some names in order, described without the loop. */
  ghost predicate Lists(names: seq<string>, prefix: string, delimiter: string, out: Listing) {
    && Increasing(out.items) && Increasing(out.prefixes)
    && (forall x :: x in out.items <==> x in names && prefix <= x && Group(x, prefix, delimiter) == None)
    && (forall p :: p in out.prefixes <==> exists x :: x in names && prefix <= x && Group(x, prefix, delimiter) == Some(p))
  }

  lemma {:induction false} ListingMeaning(names: seq<string>, prefix: string, delimiter: string)
    requires Increasing(names)
    ensures Lists(names, prefix, delimiter, ListNames(names, prefix, delimiter))
  {
    if names != [] {
      var n := |names| - 1;
      var before, last := names[..n], names[n];
      ListingMeaning(before, prefix, delimiter);
      assert names == before + [last];
      assert forall x :: x in names <==> x in before || x == last;
      var out := ListNames(before, prefix, delimiter);
      forall x | x in before ensures Less(x, last) {}
      if prefix <= last && delimiter != "" && Group(last, prefix, delimiter).Some? {
        var common := Group(last, prefix, delimiter).value;
        forall p | p in out.prefixes ensures p == common || Less(p, common) {
          var x :| x in before && prefix <= x && Group(x, prefix, delimiter) == Some(p);
          GroupMonotone(x, last, prefix, delimiter, p, common);
        }
        AppendGroup(before, last, prefix, delimiter, out, common);
      }
    }
  }

  lemma AppendGroup(before: seq<string>, last: string, prefix: string, delimiter: string, out: Listing, common: string)
    requires Lists(before, prefix, delimiter, out) && prefix <= last && Group(last, prefix, delimiter) == Some(common)
    requires forall p :: p in out.prefixes ==> p == common || Less(p, common)
    ensures Lists(before + [last], prefix, delimiter, Extend(out, last, prefix, delimiter))
  {
    var out' := Extend(out, last, prefix, delimiter);
    var names := before + [last];
    assert forall x :: x in names <==> x in before || x == last;
    assert last in names;
    forall p ensures p in out'.prefixes <==> exists x :: x in names && prefix <= x && Group(x, prefix, delimiter) == Some(p) {
      assert p in out'.prefixes <==> p in out.prefixes || p == common;
      if p in out.prefixes {
        var x :| x in before && prefix <= x && Group(x, prefix, delimiter) == Some(p);
        assert x in names;
      }
    }
  }

  /** Every matching name is either an item, once, and under no returned prefix, or not an item and under exactly
      one returned prefix. */
  lemma ListingPartitions(names: seq<string>, prefix: string, delimiter: string, x: string)
    requires Increasing(names) && delimiter != "" && x in names && prefix <= x
    ensures var out := ListNames(names, prefix, delimiter);
            || (x in out.items && forall p :: p in out.prefixes ==> !(p <= x))
            || (x !in out.items && exists p :: p in out.prefixes && p <= x && forall q :: q in out.prefixes && q <= x ==> q == p)
  {
    var out := ListNames(names, prefix, delimiter);
    ListingMeaning(names, prefix, delimiter);
    forall q | q in out.prefixes && q <= x ensures Group(x, prefix, delimiter) == Some(q) { ReturnedGroup(names, prefix, delimiter, q, x); }
    if Group(x, prefix, delimiter).Some? {
      var p := Group(x, prefix, delimiter).value;
      GroupIs(x, prefix, delimiter, p);
      assert p in out.prefixes && p <= x;
    }
  }

  lemma ReturnedGroup(names: seq<string>, prefix: string, delimiter: string, q: string, x: string)
    requires Increasing(names) && delimiter != "" && prefix <= x && q <= x
    requires q in ListNames(names, prefix, delimiter).prefixes
    ensures Group(x, prefix, delimiter) == Some(q)
  {
    ListingMeaning(names, prefix, delimiter);
    var y :| y in names && prefix <= y && Group(y, prefix, delimiter) == Some(q);
    GroupIs(y, prefix, delimiter, q);
    GroupIs(x, prefix, delimiter, q);
  }

  // ---------- walking the prefixes ----------

  function Longest(names: seq<string>): (n: nat)
    ensures forall x :: x in names ==> |x| <= n
  {
    if names == [] then 0 else var n := Longest(names[1..]); if |names[0]| > n then |names[0]| else n
  }

  /** Every returned prefix is longer than the one asked for, and no longer than the longest name. */
  lemma PrefixesGrow(names: seq<string>, prefix: string, delimiter: string, p: string)
    requires Increasing(names) && delimiter != "" && p in ListNames(names, prefix, delimiter).prefixes
    ensures |prefix| < |p| <= Longest(names) && IsGroup(p, prefix, delimiter)
  {
    ListingMeaning(names, prefix, delimiter);
    var y :| y in names && prefix <= y && Group(y, prefix, delimiter) == Some(p);
    GroupIs(y, prefix, delimiter, p);
  }

  /** What a client sees that lists a prefix and then, in turn, every prefix it is given. */
  ghost function Walk(names: seq<string>, prefix: string, delimiter: string): seq<string>
    requires Increasing(names) && delimiter != ""
    decreases Longest(names) - |prefix|, 1, 0
  {
    var out := ListNames(names, prefix, delimiter);
    forall p | p in out.prefixes ensures |prefix| < |p| <= Longest(names) { PrefixesGrow(names, prefix, delimiter, p); }
    out.items + WalkAll(names, prefix, out.prefixes, delimiter)
  }

  ghost function WalkAll(names: seq<string>, prefix: string, todo: seq<string>, delimiter: string): seq<string>
    requires Increasing(names) && delimiter != ""
    requires forall p :: p in todo ==> |prefix| < |p| <= Longest(names)
    decreases Longest(names) - |prefix|, 0, |todo|
  {
    if todo == [] then [] else Walk(names, todo[0], delimiter) + WalkAll(names, prefix, todo[1..], delimiter)
  }

  function Once(b: bool): nat {
    if b then 1 else 0
  }

  lemma {:induction false} IncreasingCount(s: seq<string>, x: string)
    requires Increasing(s)
    ensures multiset(s)[x] == Once(x in s)
  {
    if s != [] {
      IncreasingCount(s[1..], x);
      LessIrreflexive(x);
      assert s == [s[0]] + s[1..];
    }
  }

  /** The walk visits each matching name exactly once and nothing else. */
  lemma {:induction false} WalkVisitsOnce(names: seq<string>, prefix: string, delimiter: string, x: string)
    requires Increasing(names) && delimiter != ""
    ensures multiset(Walk(names, prefix, delimiter))[x] == Once(x in names && prefix <= x)
    decreases Longest(names) - |prefix|, 1, 0
  {
    var out := ListNames(names, prefix, delimiter);
    forall p | p in out.prefixes ensures |prefix| < |p| <= Longest(names) && IsGroup(p, prefix, delimiter) {
      PrefixesGrow(names, prefix, delimiter, p);
    }
    ListingMeaning(names, prefix, delimiter);
    IncreasingCount(out.items, x);
    WalkAllVisits(names, prefix, out.prefixes, delimiter, x);
    if x in names && prefix <= x { ListingPartitions(names, prefix, delimiter, x); }
    if p :| p in out.prefixes && p <= x && x in names { assert prefix <= x; }
  }

  ghost predicate Under(todo: seq<string>, x: string) {
    exists p :: p in todo && p <= x
  }

  lemma UnderCons(todo: seq<string>, x: string)
    requires todo != []
    ensures Under(todo, x) <==> todo[0] <= x || Under(todo[1..], x)
  {
    assert todo == [todo[0]] + todo[1..];
    if todo[0] <= x { assert todo[0] in todo; }
    if Under(todo[1..], x) {
      var p :| p in todo[1..] && p <= x;
      assert p in todo;
    }
    if Under(todo, x) {
      var p :| p in todo && p <= x;
      assert p == todo[0] || p in todo[1..];
    }
  }

  /** No other returned prefix is also a prefix of `x`. */
  lemma FirstOnly(names: seq<string>, prefix: string, todo: seq<string>, delimiter: string, x: string)
    requires Increasing(names) && delimiter != "" && Increasing(todo) && todo != []
    requires forall p :: p in todo ==> p in ListNames(names, prefix, delimiter).prefixes
    ensures todo[0] <= x ==> !Under(todo[1..], x)
  {
    if p :| p in todo[1..] && p <= x && todo[0] <= x {
      assert p in todo;
      PrefixesGrow(names, prefix, delimiter, p);
      ReturnedGroup(names, prefix, delimiter, p, x);
      ReturnedGroup(names, prefix, delimiter, todo[0], x);
      LessIrreflexive(p);
      assert false;
    }
  }

  lemma {:induction false} WalkAllVisits(names: seq<string>, prefix: string, todo: seq<string>, delimiter: string, x: string)
    requires Increasing(names) && delimiter != "" && Increasing(todo)
    requires forall p :: p in todo ==> |prefix| < |p| <= Longest(names) && p in ListNames(names, prefix, delimiter).prefixes
    ensures multiset(WalkAll(names, prefix, todo, delimiter))[x] == Once(x in names && Under(todo, x))
    decreases Longest(names) - |prefix|, 0, |todo|
  {
    if todo != [] {
      WalkVisitsOnce(names, todo[0], delimiter, x);
      WalkAllVisits(names, prefix, todo[1..], delimiter, x);
      FirstOnly(names, prefix, todo, delimiter, x);
      UnderCons(todo, x);
    }
  }
}
