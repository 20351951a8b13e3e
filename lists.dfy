/** Sequence helpers for the Python built-ins the crawler leans on:
    `max(xs, key=len)`, slicing `s[:n]` and list comprehensions with a filter. */
module Lists {

  /** Index of the element `max(xs, key=len)` returns: Python's `max` keeps the
      first of several equally long candidates. */
  function LongestIndex(xs: seq<string>): (i: nat)
    requires |xs| > 0
    ensures i < |xs|
    ensures forall j :: 0 <= j < |xs| ==> |xs[j]| <= |xs[i]|
    ensures forall j :: 0 <= j < i ==> |xs[j]| < |xs[i]|
    decreases |xs|
  {
    if |xs| == 1 then 0
    else
      var k := LongestIndex(xs[..|xs| - 1]);
      assert forall j :: 0 <= j < |xs| - 1 ==> xs[..|xs| - 1][j] == xs[j];
      if |xs[|xs| - 1]| > |xs[k]| then |xs| - 1 else k
  }

  /** `max(xs, key=len) if xs else ""`. */
  function LongestOrEmpty(xs: seq<string>): (r: string)
    ensures xs == [] ==> r == ""
    ensures xs != [] ==> r in xs && forall j :: 0 <= j < |xs| ==> |xs[j]| <= |r|
  {
    if xs == [] then "" else xs[LongestIndex(xs)]
  }

  /** Python's `s[:n]`. */
  function Take<T>(s: seq<T>, n: nat): (r: seq<T>)
    ensures |r| == if |s| <= n then |s| else n
    ensures r == s[..|r|]
  {
    if |s| <= n then s else s[..n]
  }

  /** Taking a prefix no shorter than a string leaves it alone, and taking twice is taking once. */
  lemma TakeTake<T>(s: seq<T>, n: nat)
    ensures Take(Take(s, n), n) == Take(s, n)
    ensures |s| <= n ==> Take(s, n) == s
  {
  }

  /** `[x for x in xs if p(x)]`. */
  function Filter<T>(xs: seq<T>, p: T -> bool): (r: seq<T>)
    ensures |r| <= |xs|
    ensures forall k :: 0 <= k < |r| ==> p(r[k]) && r[k] in xs
    decreases |xs|
  {
    if xs == [] then []
    else
      var rest := Filter(xs[..|xs| - 1], p);
      var x := xs[|xs| - 1];
      assert forall y :: y in xs[..|xs| - 1] ==> y in xs;
      rest + (if p(x) then [x] else [])
  }

  lemma FilterSnoc<T>(xs: seq<T>, i: nat, p: T -> bool)
    requires i < |xs|
    ensures Filter(xs[..i + 1], p) == Filter(xs[..i], p) + (if p(xs[i]) then [xs[i]] else [])
  {
    assert xs[..i + 1][..i] == xs[..i];
  }

  /** Filtering a list grown by one element. */
  lemma FilterAppend<T>(xs: seq<T>, x: T, p: T -> bool)
    ensures Filter(xs + [x], p) == Filter(xs, p) + (if p(x) then [x] else [])
  {
    assert (xs + [x])[..|xs|] == xs;
  }

  /** `xs` is what remains of `ys` once some of its elements are deleted:
      the kept elements stay in the order they have in `ys`. */
  predicate IsSubsequence<T(==)>(xs: seq<T>, ys: seq<T>)
    decreases |ys|
  {
    xs == [] ||
    (ys != [] &&
      (IsSubsequence(xs, ys[..|ys| - 1]) ||
       (xs[|xs| - 1] == ys[|ys| - 1] && IsSubsequence(xs[..|xs| - 1], ys[..|ys| - 1]))))
  }

  /** Filtering only deletes elements: what it keeps stays in order. */
  lemma {:induction false} FilterSubsequence<T>(xs: seq<T>, p: T -> bool)
    ensures IsSubsequence(Filter(xs, p), xs)
    decreases |xs|
  {
    if xs != [] {
      var n := |xs| - 1;
      FilterSubsequence(xs[..n], p);
      var rest := Filter(xs[..n], p);
      var r := Filter(xs, p);
      if p(xs[n]) {
        assert r == rest + [xs[n]];
        assert r[..|r| - 1] == rest;
        assert IsSubsequence(r[..|r| - 1], xs[..|xs| - 1]);
      } else {
        assert r == rest;
        assert IsSubsequence(r, xs[..|xs| - 1]);
      }
    }
  }

  /** Filtering a list with one more element in front. */
  lemma FilterCons<T>(x: T, xs: seq<T>, p: T -> bool)
    ensures Filter([x] + xs, p) == (if p(x) then [x] else []) + Filter(xs, p)
  {
    FilterConcat([x], xs, p);
    FilterAppend([], x, p);
    assert [] + [x] == [x];
  }

  /** Every element that passes the test is kept. */
  lemma {:induction false} FilterKeeps<T>(xs: seq<T>, p: T -> bool, x: T)
    requires x in xs && p(x)
    ensures x in Filter(xs, p)
    decreases |xs|
  {
    if xs[|xs| - 1] != x {
      assert x in xs[..|xs| - 1];
      FilterKeeps(xs[..|xs| - 1], p, x);
    }
  }

  /** Filtering a sequence whose every element passes changes nothing. */
  lemma {:induction false} FilterAll<T>(xs: seq<T>, p: T -> bool)
    requires forall k :: 0 <= k < |xs| ==> p(xs[k])
    ensures Filter(xs, p) == xs
    decreases |xs|
  {
    if xs != [] {
      FilterAll(xs[..|xs| - 1], p);
      assert xs[..|xs| - 1] + [xs[|xs| - 1]] == xs;
    }
  }

  lemma {:induction false} FilterConcat<T>(xs: seq<T>, ys: seq<T>, p: T -> bool)
    ensures Filter(xs + ys, p) == Filter(xs, p) + Filter(ys, p)
    decreases |ys|
  {
    if ys != [] {
      var n := |ys| - 1;
      assert (xs + ys)[..|xs + ys| - 1] == xs + ys[..n];
      FilterConcat(xs, ys[..n], p);
    } else {
      assert xs + ys == xs;
    }
  }

  /** `[f(x) for x in xs]`: one result per input, in order. */
  function Map<A, T>(f: A -> T, xs: seq<A>): (r: seq<T>)
    ensures |r| == |xs|
    ensures forall k :: 0 <= k < |xs| ==> r[k] == f(xs[k])
    decreases |xs|
  {
    if xs == [] then [] else Map(f, xs[..|xs| - 1]) + [f(xs[|xs| - 1])]
  }

  /** Mapping one more element appends its image. */
  lemma MapSnoc<A, T>(f: A -> T, xs: seq<A>, x: A)
    ensures Map(f, xs + [x]) == Map(f, xs) + [f(x)]
  {
    assert (xs + [x])[..|xs|] == xs;
  }

  /** `out = []; for x in xs: out.extend(f(x))`. */
  function FlatMap<A, T>(f: A -> seq<T>, xs: seq<A>): seq<T>
    decreases |xs|
  {
    if xs == [] then [] else FlatMap(f, xs[..|xs| - 1]) + f(xs[|xs| - 1])
  }

  /** One more round of a loop that maps `f` over `xs`. */
  lemma MapStep<A, T>(f: A -> T, xs: seq<A>, k: int, acc: seq<T>, y: T)
    requires 0 <= k < |xs| && acc == Map(f, xs[..k]) && y == f(xs[k])
    ensures acc + [y] == Map(f, xs[..k + 1])
  {
    assert xs[..k + 1] == xs[..k] + [xs[k]];
    MapSnoc(f, xs[..k], xs[k]);
  }

  /** Flat-mapping one more element appends its image. */
  lemma FlatMapSnoc<A, T>(f: A -> seq<T>, xs: seq<A>, x: A)
    ensures FlatMap(f, xs + [x]) == FlatMap(f, xs) + f(x)
  {
    assert (xs + [x])[..|xs|] == xs;
  }

  /** One more round of a loop that flat-maps `f` over `xs`. */
  lemma FlatMapStep<A, T>(f: A -> seq<T>, xs: seq<A>, k: int, acc: seq<T>, ys: seq<T>)
    requires 0 <= k < |xs| && acc == FlatMap(f, xs[..k]) && ys == f(xs[k])
    ensures acc + ys == FlatMap(f, xs[..k + 1])
  {
    assert xs[..k + 1] == xs[..k] + [xs[k]];
    FlatMapSnoc(f, xs[..k], xs[k]);
  }

  /** The results before an input, that input's, and those after it. */
  lemma FlatMapAround<A, T>(f: A -> seq<T>, xs: seq<A>, i: nat)
    requires i < |xs|
    ensures FlatMap(f, xs) == FlatMap(f, xs[..i]) + f(xs[i]) + FlatMap(f, xs[i + 1..])
  {
    var p, q := xs[..i + 1], xs[i + 1..];
    assert p == xs[..i] + [xs[i]];
    FlatMapSnoc(f, xs[..i], xs[i]);
    assert xs == p + q;
    FlatMapConcat(f, p, q);
    assert FlatMap(f, xs) == FlatMap(f, p) + FlatMap(f, q);
  }

  /** The results of two runs of inputs, one after the other. */
  lemma {:induction false} FlatMapConcat<A, T>(f: A -> seq<T>, xs: seq<A>, ys: seq<A>)
    ensures FlatMap(f, xs + ys) == FlatMap(f, xs) + FlatMap(f, ys)
    decreases |ys|
  {
    if ys != [] {
      var n := |ys| - 1;
      assert (xs + ys)[..|xs + ys| - 1] == xs + ys[..n];
      FlatMapConcat(f, xs, ys[..n]);
    } else {
      assert xs + ys == xs;
    }
  }

  /** The output is empty exactly when every input gives nothing. */
  lemma {:induction false} FlatMapEmpty<A, T>(f: A -> seq<T>, xs: seq<A>)
    ensures FlatMap(f, xs) == [] <==> forall k :: 0 <= k < |xs| ==> f(xs[k]) == []
    decreases |xs|
  {
    if xs != [] {
      var n := |xs| - 1;
      FlatMapEmpty(f, xs[..n]);
      assert forall k :: 0 <= k < n ==> xs[..n][k] == xs[k];
    }
  }
}
