/** Order-preserving removal of duplicates by a key.

    The crawler removes duplicates in three ways that all keep the first
    occurrence: a `seen` set consulted while harvesting links, pandas'
    `drop_duplicates(subset=[...])` (whose default is `keep="first"`), and
    `dict.fromkeys(...)` for hashtags.  All three are `DedupBy` below. */
module Dedup {

  /** The keys of `xs`, in order. */
  function KeysOf<T, K>(xs: seq<T>, key: T -> K): (ks: seq<K>)
    ensures |ks| == |xs|
    ensures forall i :: 0 <= i < |xs| ==> ks[i] == key(xs[i])
  {
    seq(|xs|, i requires 0 <= i < |xs| => key(xs[i]))
  }

  /** No two elements of `xs` share a key. */
  predicate UniqueBy<T, K(==)>(xs: seq<T>, key: T -> K)
  {
    forall i, j :: 0 <= i < j < |xs| ==> key(xs[i]) != key(xs[j])
  }

  /** Appends to `acc`, in order, each element of `xs` whose key is not yet present. */
  function AddNewBy<T, K(==)>(acc: seq<T>, xs: seq<T>, key: T -> K): seq<T>
    decreases |xs|
  {
    if xs == [] then acc
    else AddNewBy(if key(xs[0]) in KeysOf(acc, key) then acc else acc + [xs[0]], xs[1..], key)
  }

  /** The first element of `xs` for each key, in order of first occurrence. */
  function DedupBy<T, K(==)>(xs: seq<T>, key: T -> K): seq<T>
  {
    AddNewBy([], xs, key)
  }

  function Id<T>(x: T): T
  {
    x
  }

  /** Python's `list(dict.fromkeys(xs))`. */
  function Dedup<T(==)>(xs: seq<T>): seq<T>
  {
    DedupBy(xs, Id)
  }

  /** Under the identity key, the keys are the elements themselves. */
  lemma KeysOfId<T>(xs: seq<T>)
    ensures KeysOf(xs, Id) == xs
  {
  }

  /** Python's `x not in xs` test before `xs.append(x)`, one step of `AddNewBy`. */
  lemma AddNewIdSnoc<T>(acc: seq<T>, xs: seq<T>, x: T)
    ensures AddNewBy(acc, xs + [x], Id) ==
      var r := AddNewBy(acc, xs, Id); if x in r then r else r + [x]
  {
    AddNewSnoc(acc, xs, x, Id);
    KeysOfId(AddNewBy(acc, xs, Id));
  }

  /** `AddNewIdSnoc` for a candidate list that may or may not grow by `x`. */
  lemma AddNewIdStep<T>(acc: seq<T>, before: seq<T>, after: seq<T>, x: T, keep: bool)
    requires after == before + (if keep then [x] else [])
    ensures AddNewBy(acc, after, Id) ==
      var r := AddNewBy(acc, before, Id); if keep && x !in r then r + [x] else r
  {
    if keep {
      AddNewIdSnoc(acc, before, x);
    } else {
      assert after == before;
    }
  }

  /** Adding new elements in two batches is adding them in one. */
  lemma {:induction false} AddNewConcat<T, K>(acc: seq<T>, xs: seq<T>, ys: seq<T>, key: T -> K)
    ensures AddNewBy(acc, xs + ys, key) == AddNewBy(AddNewBy(acc, xs, key), ys, key)
    decreases |xs|
  {
    if xs != [] {
      assert (xs + ys)[0] == xs[0];
      assert (xs + ys)[1..] == xs[1..] + ys;
      AddNewConcat(if key(xs[0]) in KeysOf(acc, key) then acc else acc + [xs[0]], xs[1..], ys, key);
    } else {
      assert xs + ys == ys;
    }
  }

  /** The one-step form of `AddNewConcat` used by loops that consult a `seen` set. */
  lemma AddNewSnoc<T, K>(acc: seq<T>, xs: seq<T>, x: T, key: T -> K)
    ensures AddNewBy(acc, xs + [x], key) ==
      var r := AddNewBy(acc, xs, key); if key(x) in KeysOf(r, key) then r else r + [x]
  {
    AddNewConcat(acc, xs, [x], key);
  }

  /** The result extends `acc` and takes every other element from `xs`. */
  lemma {:induction false} AddNewShape<T, K>(acc: seq<T>, xs: seq<T>, key: T -> K)
    ensures var r := AddNewBy(acc, xs, key);
      |acc| <= |r| <= |acc| + |xs| && r[..|acc|] == acc &&
      forall j :: |acc| <= j < |r| ==> r[j] in xs
    decreases |xs|
  {
    if xs != [] {
      var acc' := if key(xs[0]) in KeysOf(acc, key) then acc else acc + [xs[0]];
      AddNewShape(acc', xs[1..], key);
      var r := AddNewBy(acc, xs, key);
      assert r[..|acc|] == r[..|acc'|][..|acc|];
      forall j | |acc| <= j < |r|
        ensures r[j] in xs
      {
        if j < |acc'| {
          assert r[j] == r[..|acc'|][j] == xs[0];
        } else {
          assert r[j] in xs[1..];
        }
      }
    }
  }

  /** Keys present afterwards are exactly those of `acc` and `xs`. */
  lemma {:induction false} AddNewKeys<T, K>(acc: seq<T>, xs: seq<T>, key: T -> K)
    ensures forall k :: k in KeysOf(AddNewBy(acc, xs, key), key) <==> k in KeysOf(acc, key) || k in KeysOf(xs, key)
    decreases |xs|
  {
    if xs != [] {
      var acc' := if key(xs[0]) in KeysOf(acc, key) then acc else acc + [xs[0]];
      AddNewKeys(acc', xs[1..], key);
      assert KeysOf(xs, key) == [key(xs[0])] + KeysOf(xs[1..], key);
      if key(xs[0]) !in KeysOf(acc, key) {
        assert KeysOf(acc', key) == KeysOf(acc, key) + [key(xs[0])];
      }
    }
  }

  /** Adding new elements never introduces a duplicate key. */
  lemma {:induction false} AddNewUnique<T, K>(acc: seq<T>, xs: seq<T>, key: T -> K)
    requires UniqueBy(acc, key)
    ensures UniqueBy(AddNewBy(acc, xs, key), key)
    decreases |xs|
  {
    if xs != [] {
      var acc' := if key(xs[0]) in KeysOf(acc, key) then acc else acc + [xs[0]];
      if key(xs[0]) !in KeysOf(acc, key) {
        forall i, j | 0 <= i < j < |acc'|
          ensures key(acc'[i]) != key(acc'[j])
        {
          if j == |acc| {
            assert KeysOf(acc, key)[i] == key(acc'[i]);
          }
        }
      }
      AddNewUnique(acc', xs[1..], key);
    }
  }

  /** Nothing is dropped from a sequence that has no duplicate keys. */
  lemma {:induction false} AddNewAllNew<T, K>(acc: seq<T>, xs: seq<T>, key: T -> K)
    requires UniqueBy(acc + xs, key)
    ensures AddNewBy(acc, xs, key) == acc + xs
    decreases |xs|
  {
    if xs != [] {
      assert (acc + xs)[|acc|] == xs[0];
      assert key(xs[0]) !in KeysOf(acc, key) by {
        forall i | 0 <= i < |acc|
          ensures KeysOf(acc, key)[i] != key(xs[0])
        {
          assert (acc + xs)[i] == acc[i];
        }
      }
      assert AddNewBy(acc, xs, key) == AddNewBy(acc + [xs[0]], xs[1..], key);
      assert acc + [xs[0]] + xs[1..] == acc + xs;
      AddNewAllNew(acc + [xs[0]], xs[1..], key);
    }
  }

  /** The keys of a sequence one element longer. */
  lemma KeysOfSnoc<T, K>(xs: seq<T>, x: T, key: T -> K)
    ensures KeysOf(xs + [x], key) == KeysOf(xs, key) + [key(x)]
  {
    assert forall i :: 0 <= i < |xs| ==> (xs + [x])[i] == xs[i];
  }

  /** `DedupBy` yields unique keys, covers every key of its input, and keeps
      only elements of its input. */
  lemma DedupByFacts<T, K>(xs: seq<T>, key: T -> K)
    ensures var r := DedupBy(xs, key);
      UniqueBy(r, key) && |r| <= |xs| &&
      (forall y :: y in r ==> y in xs) &&
      (forall k :: k in KeysOf(r, key) <==> k in KeysOf(xs, key))
  {
    AddNewUnique([], xs, key);
    AddNewShape([], xs, key);
    AddNewKeys([], xs, key);
    var r := DedupBy(xs, key);
    forall y | y in r
      ensures y in xs
    {
      var j :| 0 <= j < |r| && r[j] == y;
    }
  }

  /** `DedupBy` keeps every key of its input and no other. */
  lemma DedupByHasKey<T, K>(xs: seq<T>, key: T -> K, k: K)
    ensures k in KeysOf(DedupBy(xs, key), key) <==> k in KeysOf(xs, key)
  {
    DedupByFacts(xs, key);
  }

  /** Index of the first element of `xs` whose key is `k`. */
  function FirstIndex<T, K(==)>(xs: seq<T>, key: T -> K, k: K): (i: nat)
    requires k in KeysOf(xs, key)
    ensures i < |xs| && key(xs[i]) == k
    ensures forall j :: 0 <= j < i ==> key(xs[j]) != k
    decreases |xs|
  {
    if key(xs[0]) == k then 0
    else
      assert KeysOf(xs, key) == [key(xs[0])] + KeysOf(xs[1..], key);
      1 + FirstIndex(xs[1..], key, k)
  }

  /** A key already in `p` is first found at the same place in `p + [x]`. */
  lemma FirstIndexSnoc<T, K>(p: seq<T>, x: T, key: T -> K, k: K)
    requires k in KeysOf(p, key)
    ensures k in KeysOf(p + [x], key) && FirstIndex(p + [x], key, k) == FirstIndex(p, key, k)
  {
    var xs := p + [x];
    var i := FirstIndex(p, key, k);
    assert xs[i] == p[i];
    assert KeysOf(xs, key)[i] == k;
    var f := FirstIndex(xs, key, k);
    assert f <= i;
    assert xs[f] == p[f];
  }

  /** A key new to `p` is first found at the end of `p + [x]`. */
  lemma FirstIndexNew<T, K>(p: seq<T>, x: T, key: T -> K)
    requires key(x) !in KeysOf(p, key)
    ensures key(x) in KeysOf(p + [x], key) && FirstIndex(p + [x], key, key(x)) == |p|
  {
    var xs := p + [x];
    assert KeysOf(xs, key)[|p|] == key(x);
    forall j | 0 <= j < |p|
      ensures key(xs[j]) != key(x)
    {
      assert xs[j] == p[j] && KeysOf(p, key)[j] == key(p[j]);
    }
  }

  /** Every kept element is the FIRST element of the input with its key, and
      kept elements appear in the order of their first occurrence. */
  lemma {:induction false} DedupByFirstSeen<T, K>(xs: seq<T>, key: T -> K)
    ensures var r := DedupBy(xs, key);
      (forall j :: 0 <= j < |r| ==> key(r[j]) in KeysOf(xs, key) && r[j] == xs[FirstIndex(xs, key, key(r[j]))]) &&
      (forall i, j :: 0 <= i < j < |r| ==> FirstIndex(xs, key, key(r[i])) < FirstIndex(xs, key, key(r[j])))
    decreases |xs|
  {
    if xs != [] {
      var n := |xs| - 1;
      var p, x := xs[..n], xs[n];
      assert xs == p + [x];
      DedupByFirstSeen(p, key);
      AddNewSnoc([], p, x, key);
      var rp := DedupBy(p, key);
      forall j | 0 <= j < |rp|
        ensures key(rp[j]) in KeysOf(xs, key) && FirstIndex(xs, key, key(rp[j])) == FirstIndex(p, key, key(rp[j]))
        ensures rp[j] == xs[FirstIndex(xs, key, key(rp[j]))]
      {
        FirstIndexSnoc(p, x, key, key(rp[j]));
        assert xs[FirstIndex(p, key, key(rp[j]))] == p[FirstIndex(p, key, key(rp[j]))];
      }
      if key(x) !in KeysOf(rp, key) {
        DedupByHasKey(p, key, key(x));
        FirstIndexNew(p, x, key);
        var r := rp + [x];
        assert DedupBy(xs, key) == r;
        forall j | 0 <= j < |r|
          ensures key(r[j]) in KeysOf(xs, key) && r[j] == xs[FirstIndex(xs, key, key(r[j]))]
        {
          if j < |rp| {
            assert r[j] == rp[j];
          }
        }
        forall i, j | 0 <= i < j < |r|
          ensures FirstIndex(xs, key, key(r[i])) < FirstIndex(xs, key, key(r[j]))
        {
          assert r[i] == rp[i];
          if j < |rp| {
            assert r[j] == rp[j];
          }
        }
      }
    }
  }

  /** Removing duplicates twice is removing them once. */
  lemma DedupByIdempotent<T, K>(xs: seq<T>, key: T -> K)
    ensures DedupBy(DedupBy(xs, key), key) == DedupBy(xs, key)
  {
    DedupByFacts(xs, key);
    AddNewAllNew([], DedupBy(xs, key), key);
  }

  /** Nothing is removed from a sequence without duplicates. */
  lemma DedupByUnique<T, K>(xs: seq<T>, key: T -> K)
    requires UniqueBy(xs, key)
    ensures DedupBy(xs, key) == xs
  {
    AddNewAllNew([], xs, key);
  }

  /** In `a + b + c`, an element kept for a key that `a` lacks and `b` has
      comes from `b`: the first block holding the key decides. */
  lemma DedupByFirstBlock<T, K>(a: seq<T>, b: seq<T>, c: seq<T>, key: T -> K, k: K)
    requires k !in KeysOf(a, key) && k in KeysOf(b, key)
    ensures forall y :: y in DedupBy(a + b + c, key) && key(y) == k ==> y in b
  {
    var xs := a + b + c;
    DedupByFirstSeen(xs, key);
    var r := DedupBy(xs, key);
    var m :| 0 <= m < |b| && KeysOf(b, key)[m] == k;
    assert xs[|a| + m] == b[m];
    forall y | y in r && key(y) == k
      ensures y in b
    {
      var j :| 0 <= j < |r| && r[j] == y;
      var i := FirstIndex(xs, key, k);
      assert y == xs[i];
      assert |a| <= i <= |a| + m;
      assert xs[i] == b[i - |a|];
    }
  }
}
