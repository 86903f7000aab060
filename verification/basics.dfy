/** Shared value types and Go's fixed-width integer arithmetic. */
module Basics {
  datatype Option<+T> = None | Some(value: T)

  datatype Result<+T, +E> = Ok(value: T) | Err(error: E)

  const TWO63: int := 0x8000_0000_0000_0000
  const TWO64: int := 0x1_0000_0000_0000_0000

  /** The value a 64-bit signed operation leaves behind when its exact result is `x`. */
  function Wrap64(x: int): (r: int)
    ensures -TWO63 <= r < TWO63
    ensures -TWO63 <= x < TWO63 ==> r == x
  {
    (x + TWO63) % TWO64 - TWO63
  }

  /** Instants and durations are counted in nanoseconds. */
  type Instant = int

  const SECOND: int := 1_000_000_000

  /** `time.Duration(seconds) * time.Second`. */
  function Seconds(seconds: int): (d: int)
    ensures 0 <= seconds * SECOND < TWO63 ==> d == seconds * SECOND
  {
    Wrap64(seconds * SECOND)
  }

  newtype byte = x: int | 0 <= x < 256

  type Bytes = seq<byte>

  function Min(a: int, b: int): int {
    if a <= b then a else b
  }

  /** The elements of `s` that satisfy `p`, in order. */
  function Filter<T(!new)>(s: seq<T>, p: T -> bool): (r: seq<T>)
    ensures |r| <= |s|
    ensures forall x :: x in r <==> x in s && p(x)
  {
    if s == [] then []
    else
      assert s == [s[0]] + s[1..];
      (if p(s[0]) then [s[0]] else []) + Filter(s[1..], p)
  }

  lemma {:induction false} FilterAppend<T(!new)>(a: seq<T>, b: seq<T>, p: T -> bool)
    ensures Filter(a + b, p) == Filter(a, p) + Filter(b, p)
  {
    if a == [] {
      assert a + b == b;
    } else {
      assert (a + b)[1..] == a[1..] + b;
      FilterAppend(a[1..], b, p);
    }
  }

  ghost predicate Distinct<T(!new)>(s: seq<T>) {
    forall i, j :: 0 <= i < j < |s| ==> s[i] != s[j]
  }

  /** Apply a fallible reader to every element in order; the first failure decides. */
  function ReadAll<A, B, E>(xs: seq<A>, read: A -> Result<B, E>): (r: Result<seq<B>, E>)
    ensures r.Ok? ==> |r.value| == |xs|
  {
    if xs == [] then Ok([])
    else
      match read(xs[0])
      case Err(e) => Err(e)
      case Ok(y) =>
        match ReadAll(xs[1..], read)
        case Err(e) => Err(e)
        case Ok(ys) => Ok([y] + ys)
  }

  lemma {:induction false} ReadAllStep<A, B, E>(xs: seq<A>, read: A -> Result<B, E>, i: nat)
    requires i < |xs| && ReadAll(xs[..i], read).Ok?
    ensures match read(xs[i])
            case Ok(y) => ReadAll(xs[..i + 1], read) == Ok(ReadAll(xs[..i], read).value + [y])
            case Err(e) => ReadAll(xs, read) == Err(e)
    decreases i
  {
    if i == 0 {
      assert xs[..1][1..] == [];
      assert ReadAll(xs[..1][1..], read) == Ok([]);
      if read(xs[0]).Ok? { assert [read(xs[0]).value] + [] == [] + [read(xs[0]).value]; }
    } else {
      assert xs[..i][1..] == xs[1..][..i - 1];
      assert xs[..i + 1][1..] == xs[1..][..i];
      ReadAllStep(xs[1..], read, i - 1);
      assert xs[1..][i - 1] == xs[i];
      if read(xs[i]).Ok? {
        var y, ys, z := read(xs[0]).value, ReadAll(xs[1..][..i - 1], read).value, read(xs[i]).value;
        assert [y] + (ys + [z]) == [y] + ys + [z];
      }
    }
  }

  lemma {:induction false} ReadAllOk<A, B, E>(xs: seq<A>, read: A -> Result<B, E>, ys: seq<B>)
    requires |xs| == |ys| && forall i :: 0 <= i < |xs| ==> read(xs[i]) == Ok(ys[i])
    ensures ReadAll(xs, read) == Ok(ys)
  {
    if xs != [] {
      ReadAllOk(xs[1..], read, ys[1..]);
      assert ys == [ys[0]] + ys[1..];
    }
  }

  predicate IsMax(m: nat, s: set<nat>) {
    m in s && forall x :: x in s ==> x <= m
  }

  lemma {:induction false} MaxExists(s: set<nat>)
    requires s != {}
    ensures exists m :: IsMax(m, s)
    decreases s
  {
    var y :| y in s;
    var rest := s - {y};
    if rest == {} {
      assert s == {y};
      assert IsMax(y, s);
    } else {
      MaxExists(rest);
      var m :| IsMax(m, rest);
      var top := if y > m then y else m;
      forall x | x in s ensures x <= top {
        if x != y { assert x in rest; }
      }
      assert IsMax(top, s);
    }
  }

  function MaxOf(s: set<nat>): (m: nat)
    requires s != {}
    ensures IsMax(m, s)
  {
    MaxExists(s);
    var m :| m in s && IsMax(m, s);
    m
  }
}
