/** Laws of the walk up the parent graph, for any parents and settings. */
module OrgResolution {
  import opened Basics
  import opened OrgPolicy

  type Parents = string -> Option<string>

  type Settings = string -> Option<bool>

  lemma {:induction false} ChainDistinct(parent: Parents, cur: string, seen: set<string>, n: nat)
    ensures var c := Chain(parent, cur, seen, n);
            |c| <= n && Distinct(c) && forall x :: x in c ==> x !in seen && x != ""
    decreases n
  {
    if !(n == 0 || cur == "" || cur in seen) && parent(cur).Some? {
      var rest := Chain(parent, parent(cur).value, seen + {cur}, n - 1);
      ChainDistinct(parent, parent(cur).value, seen + {cur}, n - 1);
      assert forall i :: 0 <= i < |rest| ==> rest[i] in rest && rest[i] != cur;
    }
  }

  /** Every node of the chain but the first is the parent of the one before it. */
  lemma {:induction false} ChainLinks(parent: Parents, cur: string, seen: set<string>, n: nat, i: nat)
    requires i < |Chain(parent, cur, seen, n)|
    ensures var c := Chain(parent, cur, seen, n);
            c[0] == cur && (i > 0 ==> parent(c[i - 1]) == Some(c[i]))
    decreases n
  {
    if i > 0 {
      ChainLinks(parent, parent(cur).value, seen + {cur}, n - 1, 0);
      if i > 1 { ChainLinks(parent, parent(cur).value, seen + {cur}, n - 1, i - 1); }
    }
  }

  /** A longer bound only adds nodes at the end. */
  lemma {:induction false} ChainPrefix(parent: Parents, cur: string, seen: set<string>, n: nat, m: nat)
    requires n <= m
    ensures var c := Chain(parent, cur, seen, m);
            Chain(parent, cur, seen, n) == if n <= |c| then c[..n] else c
    decreases n
  {
    if n > 0 && !(cur == "" || cur in seen) && parent(cur).Some? {
      ChainPrefix(parent, parent(cur).value, seen + {cur}, n - 1, m - 1);
    }
  }

  /** The place of the first setting in a chain, or its length. */
  function NearestAt(chain: seq<string>, setting: Settings): (i: nat)
    ensures i <= |chain|
  {
    if chain == [] || setting(chain[0]).Some? then 0 else 1 + NearestAt(chain[1..], setting)
  }

  /** The answer is the setting at that place: the nearest one, with none before it. */
  lemma {:induction false} DecideIsNearest(chain: seq<string>, setting: Settings)
    ensures var i := NearestAt(chain, setting);
            && (forall j :: 0 <= j < i ==> setting(chain[j]).None?)
            && (i < |chain| ==> setting(chain[i]).Some? && Decide(chain, setting) == setting(chain[i]).value)
            && (i == |chain| ==> !Decide(chain, setting))
  {
    if chain != [] && setting(chain[0]).None? { DecideIsNearest(chain[1..], setting); }
  }

  lemma NearestIs(chain: seq<string>, setting: Settings, i: nat)
    requires i <= |chain| && (forall j :: 0 <= j < i ==> setting(chain[j]).None?) && (i < |chain| ==> setting(chain[i]).Some?)
    ensures NearestAt(chain, setting) == i
  {
    DecideIsNearest(chain, setting);
  }

  /** Against a walk with a larger bound, the answer differs exactly when the nearest setting is beyond the
      first `n` nodes and says yes. */
  lemma BoundMatters(parent: Parents, setting: Settings, resource: string, n: nat, m: nat)
    requires n <= m
    ensures var all := Chain(parent, resource, {}, m);
            var near := NearestAt(all, setting);
            Decide(Chain(parent, resource, {}, n), setting) == Decide(all, setting) <==>
              !(n <= near < |all| && setting(all[near]) == Some(true))
  {
    ChainPrefix(parent, resource, {}, n, m);
    var all, some := Chain(parent, resource, {}, m), Chain(parent, resource, {}, n);
    DecideIsNearest(all, setting);
    DecideIsNearest(some, setting);
    var near := NearestAt(all, setting);
    if n <= |all| {
      NearestIs(some, setting, if near < n then near else n);
    }
  }

  /** A chain up to and including its nearest setting. */
  function UpTo(chain: seq<string>, setting: Settings): seq<string> {
    if chain == [] then []
    else if setting(chain[0]).Some? then [chain[0]]
    else [chain[0]] + UpTo(chain[1..], setting)
  }

  /** What the walk looks at. */
  function Looked(parent: Parents, setting: Settings, resource: string, n: nat): seq<string> {
    UpTo(Chain(parent, resource, {}, n), setting)
  }

  /** Settings agree on the nodes looked at, and parents on those without a setting. */
  ghost predicate SameWhere(parent: Parents, setting: Settings, parent': Parents, setting': Settings, nodes: seq<string>) {
    forall x :: x in nodes ==> setting'(x) == setting(x) && (setting(x).None? ==> parent'(x) == parent(x))
  }

  lemma {:induction false} LookedDecides(parent: Parents, setting: Settings, parent': Parents, setting': Settings, cur: string, seen: set<string>, n: nat)
    requires SameWhere(parent, setting, parent', setting', UpTo(Chain(parent, cur, seen, n), setting))
    ensures Decide(Chain(parent', cur, seen, n), setting') == Decide(Chain(parent, cur, seen, n), setting)
    decreases n
  {
    var chain := Chain(parent, cur, seen, n);
    if chain != [] {
      var nodes := UpTo(chain, setting);
      assert nodes[0] == cur && cur in nodes;
      if setting(cur).None? && parent(cur).Some? {
        var up := parent(cur).value;
        assert chain[1..] == Chain(parent, up, seen + {cur}, n - 1);
        assert nodes == [cur] + UpTo(chain[1..], setting);
        LookedDecides(parent, setting, parent', setting', up, seen + {cur}, n - 1);
        assert Chain(parent', cur, seen, n)[1..] == Chain(parent', up, seen + {cur}, n - 1);
      }
    }
  }

  /** A change anywhere else leaves the answer as it is. */
  lemma ChangesAreLocal(parent: Parents, setting: Settings, parent': Parents, setting': Settings, resource: string, n: nat)
    requires SameWhere(parent, setting, parent', setting', Looked(parent, setting, resource, n))
    ensures Decide(Chain(parent', resource, {}, n), setting') == Decide(Chain(parent, resource, {}, n), setting)
  {
    LookedDecides(parent, setting, parent', setting', resource, {}, n);
  }
}
