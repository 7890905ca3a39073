/** Sequence building blocks shared by the pipeline: first-seen de-duplication
    (what `[...new Set(xs)]` yields) and bucketing by key (what a `reduce` into
    a `Map` or a plain object, read back in insertion order, yields).
    Recursive definitions peel the LAST element, as a left fold over the input
    does, so that each step of the source's `reduce` is one step here. */
module Seqs {

  import Results

  predicate NoDups<T(==)>(xs: seq<T>) {
    forall i, j :: 0 <= i < j < |xs| ==> xs[i] != xs[j]
  }

  function Map<T, U>(xs: seq<T>, f: T -> U): (r: seq<U>)
    ensures |r| == |xs|
    ensures forall i :: 0 <= i < |xs| ==> r[i] == f(xs[i])
  {
    seq(|xs|, i requires 0 <= i < |xs| => f(xs[i]))
  }

  /** Position of the first occurrence of x. */
  function IndexOf<T(==)>(xs: seq<T>, x: T): (i: nat)
    requires x in xs
    ensures i < |xs| && xs[i] == x
    ensures x !in xs[..i]
  {
    if xs[0] == x then 0 else 1 + IndexOf(xs[1..], x)
  }

  lemma IndexOfUnique<T>(xs: seq<T>, x: T, i: nat)
    requires i < |xs| && xs[i] == x && x !in xs[..i]
    ensures IndexOf(xs, x) == i
  {
    var k := IndexOf(xs, x);
    assert forall j :: 0 <= j < i ==> xs[..i][j] == xs[j];
    assert forall j :: 0 <= j < k ==> xs[..k][j] == xs[j];
  }

  /** The first occurrence of x in a prefix is its first occurrence in the whole. */
  lemma IndexOfPrefix<T>(xs: seq<T>, n: nat, x: T)
    requires n <= |xs| && x in xs[..n]
    ensures IndexOf(xs, x) == IndexOf(xs[..n], x) < n
  {
    var k := IndexOf(xs[..n], x);
    assert xs[..n][..k] == xs[..k];
    IndexOfUnique(xs, x, k);
  }

  /** Elements of xs, each once, in the order they are first seen. */
  function Distinct<T(==,!new)>(xs: seq<T>): (r: seq<T>)
    ensures NoDups(r)
    ensures forall x :: x in r <==> x in xs
    ensures |r| <= |xs|
  {
    if |xs| == 0 then []
    else
      var d := Distinct(xs[..|xs| - 1]);
      assert xs == xs[..|xs| - 1] + [xs[|xs| - 1]];
      if xs[|xs| - 1] in d then d else d + [xs[|xs| - 1]]
  }

  /** Distinct lists elements in order of their first occurrence in the input. */
  lemma {:induction false} DistinctFirstSeenOrder<T(!new)>(xs: seq<T>)
    ensures forall i, j :: 0 <= i < j < |Distinct(xs)| ==>
      IndexOf(xs, Distinct(xs)[i]) < IndexOf(xs, Distinct(xs)[j])
  {
    if |xs| > 0 {
      var n := |xs| - 1;
      var init := xs[..n];
      var d := Distinct(init);
      DistinctFirstSeenOrder(init);
      forall y | y in d
        ensures IndexOf(xs, y) == IndexOf(init, y) < n
      {
        assert xs[..n] == init;
        IndexOfPrefix(xs, n, y);
      }
      if xs[n] !in d {
        assert xs[n] !in xs[..n];
        IndexOfUnique(xs, xs[n], n);
      }
    }
  }

  /** The keys of an association list. */
  function Keys<K, V>(acc: seq<(K, V)>): (r: seq<K>)
    ensures |r| == |acc|
    ensures forall i :: 0 <= i < |acc| ==> r[i] == acc[i].0
  {
    seq(|acc|, i requires 0 <= i < |acc| => acc[i].0)
  }

  /** The values of xs whose key is k, in input order. */
  function Members<K(==), V(!new)>(xs: seq<V>, key: V -> K, k: K): (r: seq<V>)
    ensures |r| <= |xs|
    ensures forall v :: v in r ==> v in xs && key(v) == k
    ensures |r| == 0 <==> k !in Map(xs, key)
  {
    if |xs| == 0 then []
    else
      var n := |xs| - 1;
      var m := Members(xs[..n], key, k);
      assert Map(xs, key) == Map(xs[..n], key) + [key(xs[n])];
      if key(xs[n]) == k then m + [xs[n]] else m
  }

  /** Every value with key k is among k's members. */
  lemma {:induction false} MembersComplete<K(!new), V(!new)>(xs: seq<V>, key: V -> K, k: K, i: nat)
    requires i < |xs| && key(xs[i]) == k
    ensures xs[i] in Members(xs, key, k)
  {
    var n := |xs| - 1;
    if i < n {
      assert xs[..n][i] == xs[i];
      MembersComplete(xs[..n], key, k, i);
    }
  }

  /** A key's bucket holds as many values as the key has occurrences. */
  lemma {:induction false} MembersCount<K(!new), V(!new)>(xs: seq<V>, key: V -> K, k: K)
    ensures |Members(xs, key, k)| == multiset(Map(xs, key))[k]
  {
    if |xs| > 0 {
      var n := |xs| - 1;
      assert Map(xs, key) == Map(xs[..n], key) + [key(xs[n])];
      MembersCount(xs[..n], key, k);
    }
  }

  /** Total number of values held in an association list of buckets. */
  function SumLengths<K, V>(acc: seq<(K, seq<V>)>): nat {
    if |acc| == 0 then 0 else SumLengths(acc[..|acc| - 1]) + |acc[|acc| - 1].1|
  }

  lemma {:induction false} SumLengthsAppend<K, V>(acc: seq<(K, seq<V>)>, b: (K, seq<V>))
    ensures SumLengths(acc + [b]) == SumLengths(acc) + |b.1|
  {
    assert (acc + [b])[..|acc|] == acc;
  }

  lemma {:induction false} SumLengthsGrow<K, V>(acc: seq<(K, seq<V>)>, i: nat, v: V)
    requires i < |acc|
    ensures SumLengths(acc[i := (acc[i].0, acc[i].1 + [v])]) == SumLengths(acc) + 1
  {
    var n := |acc| - 1;
    var upd := acc[i := (acc[i].0, acc[i].1 + [v])];
    if i < n {
      assert upd[..n] == acc[..n][i := (acc[i].0, acc[i].1 + [v])];
      SumLengthsGrow(acc[..n], i, v);
    } else {
      assert upd[..n] == acc[..n];
    }
  }

  /** One step of the grouping fold: append v to the bucket of k, or open a new
      bucket for k at the end when k has none yet. */
  function AddTo<K(==), V>(acc: seq<(K, seq<V>)>, k: K, v: V): (r: seq<(K, seq<V>)>)
    requires NoDups(Keys(acc))
    ensures NoDups(Keys(r))
    ensures Keys(r) == if k in Keys(acc) then Keys(acc) else Keys(acc) + [k]
    ensures forall i :: 0 <= i < |acc| ==>
      r[i].1 == if acc[i].0 == k then acc[i].1 + [v] else acc[i].1
    ensures k !in Keys(acc) ==> r[|acc|].1 == [v]
    ensures SumLengths(r) == SumLengths(acc) + 1
  {
    if k in Keys(acc) then
      var i := IndexOf(Keys(acc), k);
      SumLengthsGrow(acc, i, v);
      acc[i := (k, acc[i].1 + [v])]
    else
      SumLengthsAppend(acc, (k, [v]));
      acc + [(k, [v])]
  }

  /** Values of xs grouped by key: keys distinct and in first-occurrence order,
      each bucket exactly the values with that key in input order, and no value
      lost or duplicated. */
  function Bucket<K(==,!new), V(!new)>(xs: seq<V>, key: V -> K): (r: seq<(K, seq<V>)>)
    ensures NoDups(Keys(r))
    ensures Keys(r) == Distinct(Map(xs, key))
    ensures forall i :: 0 <= i < |r| ==> r[i].1 == Members(xs, key, r[i].0)
    ensures SumLengths(r) == |xs|
  {
    if |xs| == 0 then []
    else
      var n := |xs| - 1;
      var acc := Bucket(xs[..n], key);
      BucketStep(xs, key, acc);
      AddTo(acc, key(xs[n]), xs[n])
  }

  /** The inductive step of Bucket: adding the last value to the buckets of the
      prefix keeps every bucket equal to the members of its key. */
  lemma BucketStep<K(!new), V(!new)>(xs: seq<V>, key: V -> K, acc: seq<(K, seq<V>)>)
    requires |xs| > 0
    requires NoDups(Keys(acc))
    requires Keys(acc) == Distinct(Map(xs[..|xs| - 1], key))
    requires forall i :: 0 <= i < |acc| ==> acc[i].1 == Members(xs[..|xs| - 1], key, acc[i].0)
    ensures Keys(AddTo(acc, key(xs[|xs| - 1]), xs[|xs| - 1])) == Distinct(Map(xs, key))
    ensures var r := AddTo(acc, key(xs[|xs| - 1]), xs[|xs| - 1]);
      forall i :: 0 <= i < |r| ==> r[i].1 == Members(xs, key, r[i].0)
  {
    BucketKeysStep(xs, key, acc);
    var r := AddTo(acc, key(xs[|xs| - 1]), xs[|xs| - 1]);
    forall i | 0 <= i < |r|
      ensures r[i].1 == Members(xs, key, r[i].0)
    {
      BucketMemberStep(xs, key, acc, i);
    }
  }

  lemma BucketMemberStep<K(!new), V(!new)>(xs: seq<V>, key: V -> K, acc: seq<(K, seq<V>)>, i: nat)
    requires |xs| > 0
    requires NoDups(Keys(acc))
    requires Keys(acc) == Distinct(Map(xs[..|xs| - 1], key))
    requires forall i :: 0 <= i < |acc| ==> acc[i].1 == Members(xs[..|xs| - 1], key, acc[i].0)
    requires i < |AddTo(acc, key(xs[|xs| - 1]), xs[|xs| - 1])|
    ensures var r := AddTo(acc, key(xs[|xs| - 1]), xs[|xs| - 1]);
      r[i].1 == Members(xs, key, r[i].0)
  {
    if i < |acc| {
      OldBucketStep(xs, key, acc, i);
    } else {
      NewBucketStep(xs, key, acc);
    }
  }

  lemma BucketKeysStep<K(!new), V(!new)>(xs: seq<V>, key: V -> K, acc: seq<(K, seq<V>)>)
    requires |xs| > 0
    requires NoDups(Keys(acc))
    requires Keys(acc) == Distinct(Map(xs[..|xs| - 1], key))
    ensures Keys(AddTo(acc, key(xs[|xs| - 1]), xs[|xs| - 1])) == Distinct(Map(xs, key))
  {
    var n := |xs| - 1;
    assert Map(xs, key)[..n] == Map(xs[..n], key);
  }

  lemma OldBucketStep<K(!new), V(!new)>(xs: seq<V>, key: V -> K, acc: seq<(K, seq<V>)>, i: nat)
    requires |xs| > 0 && i < |acc|
    requires NoDups(Keys(acc))
    requires acc[i].1 == Members(xs[..|xs| - 1], key, acc[i].0)
    ensures var r := AddTo(acc, key(xs[|xs| - 1]), xs[|xs| - 1]);
      r[i].1 == Members(xs, key, r[i].0)
  {
    var r := AddTo(acc, key(xs[|xs| - 1]), xs[|xs| - 1]);
    assert Keys(r)[i] == Keys(acc)[i];
  }

  lemma NewBucketStep<K(!new), V(!new)>(xs: seq<V>, key: V -> K, acc: seq<(K, seq<V>)>)
    requires |xs| > 0
    requires NoDups(Keys(acc))
    requires Keys(acc) == Distinct(Map(xs[..|xs| - 1], key))
    ensures var r := AddTo(acc, key(xs[|xs| - 1]), xs[|xs| - 1]);
      |r| > |acc| ==> r[|acc|].1 == Members(xs, key, r[|acc|].0)
  {
    var n := |xs| - 1;
    var k := key(xs[n]);
    if k !in Keys(acc) {
      var r := AddTo(acc, k, xs[n]);
      assert Keys(r)[|acc|] == k;
      assert Members(xs[..n], key, k) == [];
    }
  }

  /** Every bucket is non-empty: a key only appears because some value has it. */
  lemma BucketNonEmpty<K(!new), V(!new)>(xs: seq<V>, key: V -> K, i: nat)
    requires i < |Bucket(xs, key)|
    ensures |Bucket(xs, key)[i].1| > 0
  {
    var r := Bucket(xs, key);
    assert Keys(r)[i] == r[i].0;
    assert r[i].0 in Distinct(Map(xs, key));
  }

  /** JavaScript `filter` with a predicate that cannot throw. */
  function Filter<T(!new)>(xs: seq<T>, p: T -> bool): (r: seq<T>)
    ensures |r| <= |xs|
    ensures forall x :: x in r <==> x in xs && p(x)
  {
    if |xs| == 0 then []
    else if p(xs[0]) then [xs[0]] + Filter(xs[1..], p)
    else Filter(xs[1..], p)
  }

  /** A predicate that holds throughout keeps everything. */
  lemma {:induction false} FilterAll<T(!new)>(xs: seq<T>, p: T -> bool)
    requires forall i :: 0 <= i < |xs| ==> p(xs[i])
    ensures Filter(xs, p) == xs
  {
    if |xs| > 0 {
      var tail := xs[1..];
      forall i | 0 <= i < |tail|
        ensures p(tail[i])
      {
        assert tail[i] == xs[i + 1];
      }
      FilterAll(tail, p);
      assert p(xs[0]);
    }
  }

  /** JavaScript `find`: the first element satisfying p, or None (undefined). */
  function Find<T>(xs: seq<T>, p: T -> bool): (r: Results.Option<T>)
    ensures r.None? <==> forall i :: 0 <= i < |xs| ==> !p(xs[i])
    ensures r.Some? ==>
      exists i :: 0 <= i < |xs| && xs[i] == r.value && p(xs[i]) && forall j :: 0 <= j < i ==> !p(xs[j])
  {
    if |xs| == 0 then Results.None
    else if p(xs[0]) then Results.Some(xs[0])
    else
      var r := Find(xs[1..], p);
      assert forall i :: 0 < i < |xs| ==> xs[i] == xs[1..][i - 1];
      r
  }

  /** `xs.map(f)` where f may throw: the results in order, or the error of the
      first element whose step throws. */
  function Traverse<T, U>(xs: seq<T>, f: T -> Results.Result<U>): (r: Results.Result<seq<U>>)
  {
    if |xs| == 0 then Results.Success([])
    else
      var n := |xs| - 1;
      var prefix :- Traverse(xs[..n], f);
      var last :- f(xs[n]);
      Results.Success(prefix + [last])
  }

  /** Traverse succeeds exactly when every step does, and then holds each step's
      result at that step's position. */
  lemma {:induction false} TraverseSuccess<T, U>(xs: seq<T>, f: T -> Results.Result<U>)
    ensures Traverse(xs, f).Success? <==> forall i :: 0 <= i < |xs| ==> f(xs[i]).Success?
    ensures Traverse(xs, f).Success? ==>
      && |Traverse(xs, f).value| == |xs|
      && forall i :: 0 <= i < |xs| ==> Traverse(xs, f).value[i] == f(xs[i]).value
  {
    if |xs| > 0 {
      var n := |xs| - 1;
      assert forall i :: 0 <= i < n ==> xs[..n][i] == xs[i];
      TraverseSuccess(xs[..n], f);
    }
  }

  /** A failing Traverse reports the error of the first failing step. */
  lemma {:induction false} TraverseFailure<T, U>(xs: seq<T>, f: T -> Results.Result<U>)
    requires Traverse(xs, f).Failure?
    ensures exists i ::
      && 0 <= i < |xs| && f(xs[i]).Failure?
      && Traverse(xs, f).error == f(xs[i]).error
      && forall j :: 0 <= j < i ==> f(xs[j]).Success?
  {
    var n := |xs| - 1;
    assert forall i :: 0 <= i < n ==> xs[..n][i] == xs[i];
    if Traverse(xs[..n], f).Failure? {
      TraverseFailure(xs[..n], f);
    } else {
      TraverseSuccess(xs[..n], f);
    }
  }

  function SumReal(xs: seq<real>): real {
    if |xs| == 0 then 0.0 else SumReal(xs[..|xs| - 1]) + xs[|xs| - 1]
  }

  /** Left-to-right sum of numbers that may be NaN: NaN as soon as one term is. */
  function SumOpt(xs: seq<Results.Option<real>>): (r: Results.Option<real>)
    ensures r.Some? <==> forall i :: 0 <= i < |xs| ==> xs[i].Some?
  {
    if |xs| == 0 then Results.Some(0.0)
    else
      var n := |xs| - 1;
      var s := SumOpt(xs[..n]);
      if s.Some? && xs[n].Some? then Results.Some(s.value + xs[n].value) else Results.None
  }

  lemma SumOptAppend(xs: seq<Results.Option<real>>, x: Results.Option<real>)
    ensures SumOpt(xs + [x]) ==
      if SumOpt(xs).Some? && x.Some? then Results.Some(SumOpt(xs).value + x.value) else Results.None
  {
    assert (xs + [x])[..|xs|] == xs;
  }
}
