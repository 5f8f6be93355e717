/** The JavaScript array operations the source relies on (`map`, `filter`,
    `find`, `some`), as functions over sequences, with the facts the rest of
    the model needs about them. */
module ListOps {
  import opened Common

  /** `xs.map(f)`. */
  function Map<T, U>(xs: seq<T>, f: T -> U): (r: seq<U>)
    ensures |r| == |xs|
    ensures forall i :: 0 <= i < |xs| ==> r[i] == f(xs[i])
  {
    if xs == [] then [] else [f(xs[0])] + Map(xs[1..], f)
  }

  /** `xs.map(x => p(x) ? f(x) : x)`: the elements selected by `p` are rewritten, the others kept. */
  function MapWhere<T>(xs: seq<T>, p: T -> bool, f: T -> T): (r: seq<T>)
    ensures |r| == |xs|
    ensures forall i :: 0 <= i < |xs| ==> r[i] == if p(xs[i]) then f(xs[i]) else xs[i]
  {
    if xs == [] then [] else [if p(xs[0]) then f(xs[0]) else xs[0]] + MapWhere(xs[1..], p, f)
  }

  /** `a` is `b` with some elements left out and the others kept in their order. */
  predicate IsSubsequence<T(==)>(a: seq<T>, b: seq<T>)
    decreases |b|
  {
    a == [] || (b != [] && if a[0] == b[0] then IsSubsequence(a[1..], b[1..]) else IsSubsequence(a, b[1..]))
  }

  /** `xs.filter(p)`. */
  function Filter<T>(xs: seq<T>, p: T -> bool): (r: seq<T>)
    ensures |r| <= |xs|
    ensures forall i :: 0 <= i < |r| ==> p(r[i])
    ensures multiset(r) <= multiset(xs)
  {
    if xs == [] then []
    else
      assert xs == [xs[0]] + xs[1..];
      (if p(xs[0]) then [xs[0]] else []) + Filter(xs[1..], p)
  }

  /** What `filter` promises: every element that passes `p`, as often as it occurs in `xs`,
      nothing else, and in the order of `xs`. */
  lemma {:induction false} FilterCharacterised<T(!new)>(xs: seq<T>, p: T -> bool)
    ensures forall x :: multiset(Filter(xs, p))[x] == if p(x) then multiset(xs)[x] else 0
    ensures IsSubsequence(Filter(xs, p), xs)
  {
    if xs != [] {
      FilterCharacterised(xs[1..], p);
      var rest := Filter(xs[1..], p);
      var r := Filter(xs, p);
      assert xs == [xs[0]] + xs[1..];
      assert multiset(xs) == multiset{xs[0]} + multiset(xs[1..]);
      if p(xs[0]) {
        assert r == [xs[0]] + rest;
        assert r[0] == xs[0] && r[1..] == rest;
        assert multiset(r) == multiset{xs[0]} + multiset(rest);
      } else {
        assert r == rest;
        assert r == [] || r[0] != xs[0];
      }
    }
  }

  /** `xs.some(p)`. */
  predicate Any<T>(xs: seq<T>, p: T -> bool)
  {
    exists i :: 0 <= i < |xs| && p(xs[i])
  }

  /** `xs.findIndex(p)`, with `None` for -1: the first position selected by `p`. */
  function FirstWhere<T>(xs: seq<T>, p: T -> bool): (r: Option<nat>)
    ensures r.None? <==> !Any(xs, p)
    ensures r.Some? ==> r.value < |xs| && p(xs[r.value])
    ensures r.Some? ==> forall j :: 0 <= j < r.value ==> !p(xs[j])
  {
    if xs == [] then None
    else if p(xs[0]) then Some(0)
    else match FirstWhere(xs[1..], p)
      case None => None
      case Some(k) => Some(k + 1)
  }

  /** Filtering distributes over concatenation: it keeps the survivors in their order. */
  lemma {:induction false} FilterAppend<T>(a: seq<T>, b: seq<T>, p: T -> bool)
    ensures Filter(a + b, p) == Filter(a, p) + Filter(b, p)
  {
    if a == [] {
      assert a + b == b;
    } else {
      var head := if p(a[0]) then [a[0]] else [];
      assert (a + b)[0] == a[0] && (a + b)[1..] == a[1..] + b;
      assert Filter(a + b, p) == head + Filter(a[1..] + b, p);
      FilterAppend(a[1..], b, p);
      assert Filter(a, p) == head + Filter(a[1..], p);
    }
  }

  /** An element that passes the filter survives it. */
  lemma {:induction false} FilterKeeps<T>(xs: seq<T>, p: T -> bool, x: T)
    requires x in xs && p(x)
    ensures x in Filter(xs, p)
  {
    if xs[0] != x {
      FilterKeeps(xs[1..], p, x);
    }
  }

  /** A filter that every element passes is the identity. */
  lemma {:induction false} FilterKeepsAll<T>(xs: seq<T>, p: T -> bool)
    requires forall i :: 0 <= i < |xs| ==> p(xs[i])
    ensures Filter(xs, p) == xs
  {
    if xs != [] {
      FilterKeepsAll(xs[1..], p);
    }
  }

  /** A filter drops something exactly when some element fails it
      (what `items.length === initial` tests in deleteChecklistItem). */
  lemma {:induction false} FilterShrinks<T>(xs: seq<T>, p: T -> bool)
    ensures |Filter(xs, p)| == |xs| <==> !Any(xs, NotOf(p))
  {
    if xs != [] {
      FilterShrinks(xs[1..], p);
      if !p(xs[0]) {
        assert NotOf(p)(xs[0]);
      }
      if Any(xs[1..], NotOf(p)) {
        var i :| 0 <= i < |xs[1..]| && NotOf(p)(xs[1..][i]);
        assert NotOf(p)(xs[i + 1]);
      }
      if Any(xs, NotOf(p)) && p(xs[0]) {
        var i :| 0 <= i < |xs| && NotOf(p)(xs[i]);
        assert i != 0;
        assert NotOf(p)(xs[1..][i - 1]);
      }
    }
  }

  /** The complement of a predicate. */
  function NotOf<T>(p: T -> bool): T -> bool
  {
    x => !p(x)
  }
}
