/** Query strings in canonical form: percent-encoding (sections 2.1 and 2.3 of RFC 3986), the canonical
    printer, Go's parser, and how they undo each other. A `char` stands for one byte. */
module QueryString {
  import opened Basics
  import opened Text
  import opened Ordering

  type Query = map<string, seq<string>>

  predicate IsBytes(s: string) {
    forall c :: c in s ==> c as int < 256
  }

  predicate QueryBytes(q: Query) {
    forall k :: k in q ==> IsBytes(k) && forall v :: v in q[k] ==> IsBytes(v)
  }

  // ---------- percent-encoding ----------

  /** The unreserved characters of section 2.3 of RFC 3986. */
  predicate Unreserved(c: char) {
    'A' <= c <= 'Z' || 'a' <= c <= 'z' || '0' <= c <= '9' || c == '-' || c == '_' || c == '.' || c == '~'
  }

  function UpperHex(d: nat): (c: char)
    requires d < 16
    ensures '0' <= c <= '9' || 'A' <= c <= 'F'
  {
    if d < 10 then '0' + d as char else 'A' + (d - 10) as char
  }

  function HexValue(c: char): Option<nat> {
    if '0' <= c <= '9' then Some(c as nat - '0' as nat)
    else if 'A' <= c <= 'F' then Some(c as nat - 'A' as nat + 10)
    else if 'a' <= c <= 'f' then Some(c as nat - 'a' as nat + 10)
    else None
  }

  function Octet(c: char): string {
    var n := c as nat % 256;
    ['%', UpperHex(n / 16), UpperHex(n % 16)]
  }

  /** url.QueryEscape: a space becomes a plus sign. */
  function QueryEscape(s: string): string {
    if s == "" then ""
    else (if s[0] == ' ' then "+" else if Unreserved(s[0]) then [s[0]] else Octet(s[0])) + QueryEscape(s[1..])
  }

  function ReplacePlus(s: string): string {
    if s == "" then "" else (if s[0] == '+' then "%20" else [s[0]]) + ReplacePlus(s[1..])
  }

  function EncodeChar(c: char): string {
    if Unreserved(c) then [c] else Octet(c)
  }

  /** Every byte that is not unreserved as a percent sign and two hexadecimal digits. */
  function PercentEncode(s: string): string {
    if s == "" then "" else EncodeChar(s[0]) + PercentEncode(s[1..])
  }

  lemma {:induction false} ReplacePlusAppend(a: string, b: string)
    ensures ReplacePlus(a + b) == ReplacePlus(a) + ReplacePlus(b)
  {
    if a == "" {
      assert a + b == b;
    } else {
      assert (a + b)[1..] == a[1..] + b;
      ReplacePlusAppend(a[1..], b);
    }
  }

  lemma ReplacePlusNone(s: string)
    requires '+' !in s && |s| <= 3
    ensures ReplacePlus(s) == s
  {
    if s != "" {
      ReplacePlusNone(s[1..]);
      assert s == [s[0]] + s[1..];
    }
  }

  lemma OneCharEscaped(c: char)
    ensures ReplacePlus(if c == ' ' then "+" else EncodeChar(c)) == EncodeChar(c)
  {
    if c == ' ' {
      assert ReplacePlus("+") == "%20" + ReplacePlus("") by { assert "+"[1..] == ""; }
      assert Octet(' ') == "%20";
    } else {
      ReplacePlusNone(EncodeChar(c));
    }
  }

  /** Escaping and then rewriting plus signs is percent-encoding: a plus sign in the text is not mistaken
      for a space. */
  lemma {:induction false} EscapeIsPercentEncode(s: string)
    ensures ReplacePlus(QueryEscape(s)) == PercentEncode(s)
  {
    if s != "" {
      EscapeIsPercentEncode(s[1..]);
      OneCharEscaped(s[0]);
      ReplacePlusAppend(if s[0] == ' ' then "+" else EncodeChar(s[0]), QueryEscape(s[1..]));
    }
  }

  /** url.QueryUnescape. */
  function Unescape(s: string): Option<string>
    decreases |s|
  {
    if s == "" then Some("")
    else if s[0] == '%' then
      if |s| < 3 || HexValue(s[1]).None? || HexValue(s[2]).None? then None
      else
        match Unescape(s[3..])
        case None => None
        case Some(rest) => Some([(16 * HexValue(s[1]).value + HexValue(s[2]).value) as char] + rest)
    else
      match Unescape(s[1..])
      case None => None
      case Some(rest) => Some([if s[0] == '+' then ' ' else s[0]] + rest)
  }

  lemma HexRoundTrip(d: nat)
    requires d < 16
    ensures HexValue(UpperHex(d)) == Some(d)
  {
  }

  lemma OctetValue(c: char)
    requires c as int < 256
    ensures var o := Octet(c);
            && HexValue(o[1]).Some? && HexValue(o[2]).Some?
            && 16 * HexValue(o[1]).value + HexValue(o[2]).value == c as int
  {
    var n := c as nat;
    var high, low := n / 16, n % 16;
    assert n == 16 * high + low && high < 16;
    HexRoundTrip(high);
    HexRoundTrip(low);
    assert n % 256 == n;
    assert Octet(c) == ['%', UpperHex(high), UpperHex(low)];
  }

  lemma UnescapeOctet(c: char, rest: string)
    requires c as int < 256 && Unescape(rest).Some?
    ensures Unescape(Octet(c) + rest) == Some([c] + Unescape(rest).value)
  {
    OctetValue(c);
    var s := Octet(c) + rest;
    assert s[0] == '%' && s[1] == Octet(c)[1] && s[2] == Octet(c)[2] && s[3..] == rest;
  }

  lemma {:induction false} UnescapeEncoded(s: string)
    requires IsBytes(s)
    ensures Unescape(PercentEncode(s)) == Some(s)
  {
    if s != "" {
      var rest := PercentEncode(s[1..]);
      assert s == [s[0]] + s[1..];
      assert forall c :: c in s[1..] ==> c in s;
      UnescapeEncoded(s[1..]);
      if Unreserved(s[0]) {
        assert ([s[0]] + rest)[1..] == rest;
      } else {
        assert s[0] in s;
        UnescapeOctet(s[0], rest);
      }
    }
  }

  predicate Plain(c: char) {
    Unreserved(c) || c == '%'
  }

  lemma {:induction false} EncodedIsPlain(s: string)
    ensures forall c :: c in PercentEncode(s) ==> Plain(c)
  {
    if s != "" { EncodedIsPlain(s[1..]); }
  }

  // ---------- the canonical text ----------

  function Pair(k: string, v: string): string {
    PercentEncode(k) + "=" + PercentEncode(v)
  }

  function Pairs(k: string, vs: seq<string>): (r: seq<string>)
    ensures |r| == |vs| && forall i :: 0 <= i < |r| ==> r[i] == Pair(k, vs[i])
  {
    seq(|vs|, i requires 0 <= i < |vs| => Pair(k, vs[i]))
  }

  /** The parts one key contributes. */
  function KeyParts(q: Query, k: string): seq<string> {
    if k in q then Pairs(k, Sort(q[k])) else []
  }

  function Parts(q: Query, keys: seq<string>): seq<string> {
    if keys == [] then [] else KeyParts(q, keys[0]) + Parts(q, keys[1..])
  }

  function Canonical(q: Query): string {
    Join(Parts(q, SortedSeq(q.Keys)), "&")
  }

  lemma SortedKeys(keys: seq<string>, s: set<string>)
    requires |keys| == |s| && forall k :: k in keys <==> k in s
    ensures Sort(keys) == SortedSeq(s)
  {
    SortSorts(keys);
    var a, b := Sort(keys), SortedSeq(s);
    forall i, j | 0 <= i < j < |b| ensures !Less(b[j], b[i]) { LessAsymmetric(b[i], b[j]); }
    assert multiset(keys) == multiset(s) by { NoRepeats(keys, s); }
    assert multiset(b) == multiset(s) by { NoRepeats(b, s); }
    SortedUnique(a, b);
  }

  lemma {:induction false} NoRepeats(keys: seq<string>, s: set<string>)
    requires |keys| == |s| && forall k :: k in keys <==> k in s
    ensures multiset(keys) == multiset(s)
    decreases |keys|
  {
    if keys != [] {
      var head, rest := keys[0], keys[1..];
      assert keys == [head] + rest;
      if head in rest {
        assert forall k :: k in rest <==> k in s;
        FewerElements(rest, s);
        assert false;
      }
      assert head in keys;
      assert forall k :: k in rest <==> k in s - {head};
      NoRepeats(rest, s - {head});
      assert multiset(s) == multiset(s - {head}) + multiset{head};
    }
  }

  lemma {:induction false} FewerElements(keys: seq<string>, s: set<string>)
    requires forall k :: k in s ==> k in keys
    ensures |s| <= |keys|
    decreases |keys|
  {
    if keys == [] {
      assert forall k :: k in s ==> k in keys;
      assert s == {};
    } else {
      assert keys == [keys[0]] + keys[1..];
      FewerElements(keys[1..], s - {keys[0]});
    }
  }

  /** Collecting the keys of a map in any order and sorting them. */
  method CollectKeys(q: Query) returns (keys: seq<string>)
    ensures keys == SortedSeq(q.Keys)
  {
    keys := [];
    var todo := q.Keys;
    while todo != {}
      invariant todo <= q.Keys && |keys| + |todo| == |q.Keys|
      invariant forall k :: k in keys <==> k in q.Keys - todo
      decreases todo
    {
      var k :| k in todo;
      keys := keys + [k];
      todo := todo - {k};
    }
    SortedKeys(keys, q.Keys);
    keys := Sort(keys);
  }

  lemma {:induction false} PartsSnoc(q: Query, keys: seq<string>, last: string)
    ensures Parts(q, keys + [last]) == Parts(q, keys) + KeyParts(q, last)
    decreases |keys|
  {
    if keys == [] {
      assert [] + [last] == [last] && [last][1..] == [];
      assert KeyParts(q, last) + [] == [] + KeyParts(q, last);
    } else {
      assert (keys + [last])[1..] == keys[1..] + [last];
      PartsSnoc(q, keys[1..], last);
      Regroup(KeyParts(q, keys[0]), Parts(q, keys[1..]), KeyParts(q, last));
    }
  }

  /** canonicalQueryString: whatever order the keys come out of the map in. */
  method CanonicalQueryString(q: Query) returns (r: string)
    ensures r == Canonical(q)
  {
    if |q| == 0 { return ""; }
    var keys := CollectKeys(q);
    assert forall i :: 0 <= i < |keys| ==> keys[i] in keys;
    var parts := AppendKeys(q, keys);
    r := Join(parts, "&");
  }

  lemma PartsStep(q: Query, keys: seq<string>, i: nat)
    requires i < |keys|
    ensures Parts(q, keys[..i + 1]) == Parts(q, keys[..i]) + KeyParts(q, keys[i])
  {
    assert keys[..i + 1] == keys[..i] + [keys[i]];
    PartsSnoc(q, keys[..i], keys[i]);
  }

  /** The loop over the sorted keys. */
  method AppendKeys(q: Query, keys: seq<string>) returns (parts: seq<string>)
    requires forall i :: 0 <= i < |keys| ==> keys[i] in q
    ensures parts == Parts(q, keys)
  {
    parts := [];
    for i := 0 to |keys|
      invariant parts == Parts(q, keys[..i])
    {
      PartsStep(q, keys, i);
      var pairs := AppendKey(q, keys[i]);
      parts := parts + pairs;
    }
    assert keys[..|keys|] == keys;
  }

  /** The inner loop of canonicalQueryString. */
  method AppendKey(q: Query, k: string) returns (r: seq<string>)
    requires k in q
    ensures r == KeyParts(q, k)
  {
    var vs := Sort(q[k]);
    r := AppendPairs(k, vs);
  }

  method AppendPairs(k: string, vs: seq<string>) returns (r: seq<string>)
    ensures r == Pairs(k, vs)
  {
    var ek := ReplacePlus(QueryEscape(k));
    EscapeIsPercentEncode(k);
    r := [];
    for j := 0 to |vs|
      invariant |r| == j && forall i :: 0 <= i < j ==> r[i] == Pair(k, vs[i])
    {
      var ev := ReplacePlus(QueryEscape(vs[j]));
      EscapeIsPercentEncode(vs[j]);
      r := r + [ek + "=" + ev];
    }
  }

  // ---------- parsing ----------

  function Add(q: Query, k: string, v: string): Query {
    q[k := (if k in q then q[k] else []) + [v]]
  }

  /** One part of url.ParseQuery; parts it cannot read are dropped. */
  function AddPart(q: Query, part: string): Query {
    if part == "" || Contains(part, ";") then q
    else
      var i := Index(part, "=");
      var k := Unescape(if i < 0 then part else part[..i]);
      var v := Unescape(if i < 0 then "" else part[i + 1..]);
      if k.Some? && v.Some? then Add(q, k.value, v.value) else q
  }

  function AddParts(q: Query, parts: seq<string>): Query
    decreases |parts|
  {
    if parts == [] then q else AddParts(AddPart(q, parts[0]), parts[1..])
  }

  function ParseQuery(text: string): Query {
    AddParts(map[], Split(text, "&"))
  }

  lemma {:induction false} AddPartsAppend(q: Query, a: seq<string>, b: seq<string>)
    ensures AddParts(q, a + b) == AddParts(AddParts(q, a), b)
    decreases |a|
  {
    if a == [] {
      assert a + b == b;
    } else {
      assert (a + b)[1..] == a[1..] + b;
      AddPartsAppend(AddPart(q, a[0]), a[1..], b);
    }
  }

  lemma PairShape(k: string, v: string)
    ensures Pair(k, v) != "" && '&' !in Pair(k, v) && ';' !in Pair(k, v) && '=' !in PercentEncode(k)
  {
    EncodedIsPlain(k);
    EncodedIsPlain(v);
  }

  lemma AddPair(q: Query, k: string, v: string)
    requires IsBytes(k) && IsBytes(v)
    ensures AddPart(q, Pair(k, v)) == Add(q, k, v)
  {
    PairShape(k, v);
    ContainsChar(Pair(k, v), ';');
    CutAt(PercentEncode(k), '=', PercentEncode(v));
    UnescapeEncoded(k);
    UnescapeEncoded(v);
  }

  function Values(q: Query, k: string): seq<string> {
    if k in q then q[k] else []
  }

  lemma AddMore(q: Query, k: string, v: string, vs: seq<string>)
    ensures Add(q, k, v)[k := Values(Add(q, k, v), k) + vs] == q[k := Values(q, k) + ([v] + vs)]
  {
    assert Values(q, k) + [v] + vs == Values(q, k) + ([v] + vs);
  }

  lemma {:induction false} AddPairs(q: Query, k: string, vs: seq<string>)
    requires IsBytes(k) && (forall v :: v in vs ==> IsBytes(v)) && vs != []
    ensures AddParts(q, Pairs(k, vs)) == q[k := Values(q, k) + vs]
    decreases |vs|
  {
    AddPair(q, k, vs[0]);
    var parts := Pairs(k, vs);
    var q1 := Add(q, k, vs[0]);
    assert vs == [vs[0]] + vs[1..];
    assert parts[1..] == Pairs(k, vs[1..]);
    if |vs| == 1 {
      assert vs == [vs[0]];
      assert AddParts(q1, parts[1..]) == q1;
    } else {
      AddPairs(q1, k, vs[1..]);
      AddMore(q, k, vs[0], vs[1..]);
    }
  }

  /** What the canonical text keeps: keys with at least one value, each with its values sorted. */
  function Normal(q: Query): Query {
    map k | k in q && q[k] != [] :: Sort(q[k])
  }

  /** Adding the keys of `q` one by one. */
  function Collect(done: Query, q: Query, keys: seq<string>): Query
    requires forall k :: k in keys ==> k in q
    decreases |keys|
  {
    if keys == [] then done
    else Collect(if q[keys[0]] == [] then done else done[keys[0] := Sort(q[keys[0]])], q, keys[1..])
  }

  lemma {:induction false} CollectMeans(done: Query, q: Query, keys: seq<string>, k: string)
    requires forall x :: x in keys ==> x in q
    ensures var r := Collect(done, q, keys);
            && (k in r <==> k in done || (k in keys && q[k] != []))
            && (k in keys && q[k] != [] ==> k in r && r[k] == Sort(q[k]))
            && (k !in keys && k in done ==> k in r && r[k] == done[k])
    decreases |keys|
  {
    if keys != [] {
      var x := keys[0];
      assert keys == [x] + keys[1..];
      CollectMeans(if q[x] == [] then done else done[x := Sort(q[x])], q, keys[1..], k);
    }
  }

  lemma CollectAt(q: Query, k: string)
    ensures var r := Collect(map[], q, SortedSeq(q.Keys));
            (k in r <==> k in Normal(q)) && (k in r ==> r[k] == Normal(q)[k])
  {
    CollectMeans(map[], q, SortedSeq(q.Keys), k);
  }

  lemma CollectIsNormal(q: Query)
    ensures Collect(map[], q, SortedSeq(q.Keys)) == Normal(q)
  {
    var r, n := Collect(map[], q, SortedSeq(q.Keys)), Normal(q);
    forall k ensures (k in r <==> k in n) && (k in r ==> r[k] == n[k]) { CollectAt(q, k); }
    SameMap(r, n);
  }

  lemma SameMap(a: Query, b: Query)
    requires forall k :: (k in a <==> k in b) && (k in a ==> a[k] == b[k])
    ensures a == b
  {
  }

  lemma AddKey(done: Query, q: Query, k: string)
    requires QueryBytes(q) && k in q && k !in done
    ensures AddParts(done, KeyParts(q, k)) == if q[k] == [] then done else done[k := Sort(q[k])]
  {
    var vs := Sort(q[k]);
    SortKeepsBytes(q, k);
    assert |vs| == |q[k]| by { assert |multiset(vs)| == |multiset(q[k])|; }
    if vs != [] {
      AddPairs(done, k, vs);
      assert [] + vs == vs;
    } else {
      assert Pairs(k, vs) == [];
    }
  }

  /** The keys are all in `q`, different, and not added yet. */
  ghost predicate ToAdd(done: Query, q: Query, keys: seq<string>) {
    Distinct(keys) && forall k :: k in keys ==> k in q && k !in done
  }

  lemma ToAddTail(done: Query, q: Query, keys: seq<string>)
    requires ToAdd(done, q, keys) && keys != []
    ensures keys[0] in q && keys[0] !in done
    ensures ToAdd(if q[keys[0]] == [] then done else done[keys[0] := Sort(q[keys[0]])], q, keys[1..])
  {
    assert forall i :: 0 <= i < |keys| ==> keys[i] in keys;
    assert forall i :: 0 <= i < |keys[1..]| ==> keys[1..][i] == keys[i + 1] != keys[0];
  }

  lemma {:induction false} AddAll(done: Query, q: Query, keys: seq<string>)
    requires QueryBytes(q) && ToAdd(done, q, keys)
    ensures AddParts(done, Parts(q, keys)) == Collect(done, q, keys)
    decreases |keys|
  {
    if keys != [] {
      ToAddTail(done, q, keys);
      AddPartsAppend(done, KeyParts(q, keys[0]), Parts(q, keys[1..]));
      AddKey(done, q, keys[0]);
      AddAll(if q[keys[0]] == [] then done else done[keys[0] := Sort(q[keys[0]])], q, keys[1..]);
    }
  }

  lemma SortKeepsBytes(q: Query, k: string)
    requires QueryBytes(q) && k in q
    ensures forall v :: v in Sort(q[k]) ==> IsBytes(v)
  {
    forall v | v in Sort(q[k]) ensures IsBytes(v) {
      assert v in multiset(Sort(q[k]));
      assert v in q[k];
    }
  }

  lemma IncreasingIsDistinct(s: seq<string>)
    requires Increasing(s)
    ensures Distinct(s)
  {
    forall i, j | 0 <= i < j < |s| ensures s[i] != s[j] { LessIrreflexive(s[i]); }
  }

  lemma KeyPartsShape(q: Query, k: string)
    ensures forall i :: 0 <= i < |KeyParts(q, k)| ==> Clean(KeyParts(q, k)[i], "&")
  {
    if k in q {
      var vs := Sort(q[k]);
      forall i | 0 <= i < |vs| ensures Clean(Pairs(k, vs)[i], "&") {
        PairShape(k, vs[i]);
        CleanChar(Pair(k, vs[i]), '&');
      }
    }
  }

  lemma {:induction false} PartsShape(q: Query, keys: seq<string>)
    ensures forall i :: 0 <= i < |Parts(q, keys)| ==> Clean(Parts(q, keys)[i], "&")
  {
    if keys != [] {
      KeyPartsShape(q, keys[0]);
      PartsShape(q, keys[1..]);
    }
  }

  lemma ParseJoined(q: Query, keys: seq<string>)
    ensures ParseQuery(Join(Parts(q, keys), "&")) == AddParts(map[], Parts(q, keys))
  {
    var parts := Parts(q, keys);
    if parts == [] {
      assert Split("", "&") == [""];
      assert [""][1..] == [];
      assert AddParts(map[], [""]) == AddParts(AddPart(map[], ""), []);
    } else {
      PartsShape(q, keys);
      SplitJoin(parts, "&");
    }
  }

  /** Parsing undoes printing: it gives every key that has a value back, with its values sorted. */
  lemma ParseCanonical(q: Query)
    requires QueryBytes(q)
    ensures ParseQuery(Canonical(q)) == Normal(q)
  {
    var keys := SortedSeq(q.Keys);
    IncreasingIsDistinct(keys);
    AddAll(map[], q, keys);
    CollectIsNormal(q);
    ParseJoined(q, keys);
  }

  /** Equal up to the order of each key's values. */
  ghost predicate SameUpToOrder(a: Query, b: Query) {
    a.Keys == b.Keys && forall k :: k in a ==> multiset(a[k]) == multiset(b[k])
  }

  predicate NoEmptyLists(q: Query) {
    forall k :: k in q ==> q[k] != []
  }

  lemma NormalKeys(q: Query)
    requires NoEmptyLists(q)
    ensures Normal(q).Keys == q.Keys
  {
  }

  lemma SameHasValues(a: Query, b: Query)
    requires NoEmptyLists(a) && SameUpToOrder(a, b)
    ensures NoEmptyLists(b)
  {
    forall k | k in b ensures b[k] != [] {
      assert k in a.Keys;
      assert |multiset(a[k])| == |multiset(b[k])|;
    }
  }

  lemma NormalOfSame(a: Query, b: Query)
    requires NoEmptyLists(a) && SameUpToOrder(a, b)
    ensures Normal(a) == Normal(b)
  {
    SameHasValues(a, b);
    NormalKeys(a);
    NormalKeys(b);
    var na, nb := Normal(a), Normal(b);
    forall k ensures (k in na <==> k in nb) && (k in na ==> na[k] == nb[k]) {
      assert k in na <==> k in na.Keys;
      if k in na { NormalAt(a, b, k); }
    }
    SameMap(na, nb);
  }

  lemma SameOfNormal(a: Query, b: Query)
    requires NoEmptyLists(a) && NoEmptyLists(b) && Normal(a) == Normal(b)
    ensures SameUpToOrder(a, b)
  {
    NormalKeys(a);
    NormalKeys(b);
    forall k | k in a ensures multiset(a[k]) == multiset(b[k]) { NormalAt(a, b, k); }
  }

  lemma NormalAt(a: Query, b: Query, k: string)
    requires k in a && k in b && a[k] != [] && b[k] != []
    ensures Normal(a)[k] == Normal(b)[k] <==> multiset(a[k]) == multiset(b[k])
  {
    SortForgetsOrder(a[k], b[k]);
  }

  predicate HasValues(q: Query, k: string) {
    k in q && q[k] != []
  }

  /** Keys without values add nothing. */
  lemma {:induction false} PartsSkip(q: Query, keys: seq<string>)
    ensures Parts(q, keys) == Parts(q, Filter(keys, k => HasValues(q, k)))
    decreases |keys|
  {
    if keys != [] {
      PartsSkip(q, keys[1..]);
      var rest := Filter(keys[1..], k => HasValues(q, k));
      if HasValues(q, keys[0]) {
        assert ([keys[0]] + rest)[1..] == rest;
      } else {
        assert KeyParts(q, keys[0]) == [];
        assert [] + rest == rest;
      }
    }
  }

  lemma {:induction false} FilterIncreasing(s: seq<string>, p: string -> bool)
    requires Increasing(s)
    ensures Increasing(Filter(s, p))
  {
    if s != [] {
      FilterIncreasing(s[1..], p);
      var rest := Filter(s[1..], p);
      forall j | 0 <= j < |rest| ensures Less(s[0], rest[j]) { assert rest[j] in s[1..]; }
    }
  }

  lemma KeyPartsNormal(q: Query, k: string)
    requires HasValues(q, k)
    ensures KeyParts(q, k) == KeyParts(Normal(q), k)
  {
    SortForgetsOrder(Sort(q[k]), q[k]);
    assert Normal(q)[k] == Sort(q[k]);
  }

  lemma {:induction false} PartsNormal(q: Query, keys: seq<string>)
    requires forall k :: k in keys ==> HasValues(q, k)
    ensures Parts(q, keys) == Parts(Normal(q), keys)
    decreases |keys|
  {
    if keys != [] {
      assert keys == [keys[0]] + keys[1..] && keys[0] in keys;
      KeyPartsNormal(q, keys[0]);
      PartsNormal(q, keys[1..]);
    }
  }

  lemma CanonicalNormal(q: Query)
    ensures Canonical(q) == Canonical(Normal(q))
  {
    var keys := SortedSeq(q.Keys);
    var kept := Filter(keys, k => HasValues(q, k));
    PartsSkip(q, keys);
    FilterIncreasing(keys, k => HasValues(q, k));
    forall k ensures k in kept <==> k in SortedSeq(Normal(q).Keys) {
      assert k in kept <==> k in q && HasValues(q, k);
    }
    IncreasingUnique(kept, SortedSeq(Normal(q).Keys));
    PartsNormal(q, kept);
  }

  /** Printing forgets exactly what `Normal` does: value order and keys without values. */
  lemma CanonicalDecides(a: Query, b: Query)
    requires QueryBytes(a) && QueryBytes(b)
    ensures Canonical(a) == Canonical(b) <==> Normal(a) == Normal(b)
  {
    ParseCanonical(a);
    ParseCanonical(b);
    CanonicalNormal(a);
    CanonicalNormal(b);
  }

  /** Multimaps without empty value lists print the same exactly when they are equal up to value order. */
  lemma CanonicalInjective(a: Query, b: Query)
    requires QueryBytes(a) && QueryBytes(b) && NoEmptyLists(a) && NoEmptyLists(b)
    ensures Canonical(a) == Canonical(b) <==> SameUpToOrder(a, b)
  {
    CanonicalDecides(a, b);
    if SameUpToOrder(a, b) { NormalOfSame(a, b); }
    if Normal(a) == Normal(b) { SameOfNormal(a, b); }
  }
}
