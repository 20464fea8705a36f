/** Sequence shapes that recur across the gateway: keeping some elements of
    a list in order (the lenient part translation, the kept response parts,
    the model-name filter) and dropping duplicates (`list(set(...))`). */
module Seqs {
  import opened Wrappers

  /** Python's `[g(x) for x in xs if keep(x)]`, with `f` folding the test and
      the mapping into one Option. */
  function FilterMap<A, B>(xs: seq<A>, f: A -> Option<B>): (r: seq<B>)
    ensures |r| <= |xs|
    decreases |xs|
  {
    if |xs| == 0 then []
    else
      var rest := FilterMap(xs[1..], f);
      match f(xs[0])
      case Some(b) => [b] + rest
      case None => rest
  }

  predicate StrictlyIncreasing(idx: seq<nat>) {
    forall j, k :: 0 <= j < k < |idx| ==> idx[j] < idx[k]
  }

  function Shift(idx: seq<nat>): (r: seq<nat>)
    ensures |r| == |idx|
    ensures forall k :: 0 <= k < |idx| ==> r[k] == idx[k] + 1
  {
    seq(|idx|, k requires 0 <= k < |idx| => idx[k] + 1)
  }

  /** The positions of `xs` that `f` keeps, in increasing order. */
  function KeptIndices<A, B>(xs: seq<A>, f: A -> Option<B>): (idx: seq<nat>)
    ensures StrictlyIncreasing(idx)
    ensures forall k :: 0 <= k < |idx| ==> idx[k] < |xs|
    decreases |xs|
  {
    if |xs| == 0 then []
    else
      var shifted := Shift(KeptIndices(xs[1..], f));
      if f(xs[0]).Some? then [0] + shifted else shifted
  }

  /** A position is kept exactly when `f` accepts the element there. */
  lemma {:induction false} KeptIndicesExactly<A, B>(xs: seq<A>, f: A -> Option<B>, i: nat)
    requires i < |xs|
    ensures f(xs[i]).Some? <==> i in KeptIndices(xs, f)
    decreases |xs|
  {
    var rest := KeptIndices(xs[1..], f);
    var shifted := Shift(rest);
    if i > 0 {
      KeptIndicesExactly(xs[1..], f, i - 1);
      assert xs[i] == xs[1..][i - 1];
      assert i in shifted <==> i - 1 in rest;
    }
    assert 0 !in shifted;
  }

  /** `KeptIndicesExactly` at every position at once. */
  lemma KeptIndicesAll<A, B>(xs: seq<A>, f: A -> Option<B>)
    ensures forall i :: 0 <= i < |xs| ==> (f(xs[i]).Some? <==> i in KeptIndices(xs, f))
  {
    forall i | 0 <= i < |xs|
      ensures f(xs[i]).Some? <==> i in KeptIndices(xs, f)
    {
      KeptIndicesExactly(xs, f, i);
    }
  }

  /** `FilterMap` keeps exactly the elements `f` accepts, in their original
      order: its k-th result comes from the k-th accepted position. */
  lemma {:induction false} FilterMapKeepsExactly<A, B>(xs: seq<A>, f: A -> Option<B>)
    ensures |FilterMap(xs, f)| == |KeptIndices(xs, f)|
    ensures forall k :: 0 <= k < |KeptIndices(xs, f)| ==>
      f(xs[KeptIndices(xs, f)[k]]) == Some(FilterMap(xs, f)[k])
    decreases |xs|
  {
    if |xs| > 0 {
      FilterMapKeepsExactly(xs[1..], f);
      var r, idx := FilterMap(xs, f), KeptIndices(xs, f);
      var rest, restIdx := FilterMap(xs[1..], f), KeptIndices(xs[1..], f);
      if f(xs[0]).Some? {
        assert r == [f(xs[0]).value] + rest;
        assert idx == [0] + Shift(restIdx);
        forall k | 0 < k < |idx|
          ensures f(xs[idx[k]]) == Some(r[k])
        {
          assert xs[idx[k]] == xs[1..][restIdx[k - 1]];
        }
      } else {
        assert r == rest;
        assert idx == Shift(restIdx);
        forall k | 0 <= k < |idx|
          ensures f(xs[idx[k]]) == Some(r[k])
        {
          assert xs[idx[k]] == xs[1..][restIdx[k]];
        }
      }
    }
  }

  /** When `f` accepts every element, `FilterMap` is a plain map. */
  lemma {:induction false} FilterMapAll<A, B>(xs: seq<A>, f: A -> Option<B>)
    requires forall i :: 0 <= i < |xs| ==> f(xs[i]).Some?
    ensures |FilterMap(xs, f)| == |xs|
    ensures forall i :: 0 <= i < |xs| ==> f(xs[i]) == Some(FilterMap(xs, f)[i])
    decreases |xs|
  {
    if |xs| > 0 {
      assert forall i :: 1 <= i < |xs| ==> xs[i] == xs[1..][i - 1];
      FilterMapAll(xs[1..], f);
    }
  }

  /** A non-empty sequence contains its head. */
  /** Putting an element in front commutes with appending. */
  lemma ConsAppend<T>(x: T, ys: seq<T>, zs: seq<T>)
    ensures ([x] + ys) + zs == [x] + (ys + zs)
  {
  }

  lemma HeadIsMember<T>(s: seq<T>)
    ensures |s| > 0 ==> s[0] in s
  {
  }

  /** An element is in the `FilterMap` result exactly when `f` maps some
      input element to it. */
  lemma {:induction false} FilterMapMembers<A, B>(xs: seq<A>, f: A -> Option<B>, y: B)
    ensures y in FilterMap(xs, f) <==> exists i :: 0 <= i < |xs| && f(xs[i]) == Some(y)
    decreases |xs|
  {
    if |xs| > 0 {
      FilterMapMembers(xs[1..], f, y);
      if exists i :: 0 <= i < |xs| && f(xs[i]) == Some(y) {
        var i :| 0 <= i < |xs| && f(xs[i]) == Some(y);
        if i > 0 {
          assert xs[1..][i - 1] == xs[i];
        }
      }
      if exists i :: 0 <= i < |xs| - 1 && f(xs[1..][i]) == Some(y) {
        var i :| 0 <= i < |xs| - 1 && f(xs[1..][i]) == Some(y);
        assert xs[i + 1] == xs[1..][i];
      }
    }
  }

  predicate NoDuplicates<T(==)>(xs: seq<T>) {
    forall j, k :: 0 <= j < k < |xs| ==> xs[j] != xs[k]
  }

  /** `list(set(xs))`, keeping each element's first occurrence. */
  function Dedupe<T(==,!new)>(xs: seq<T>): (r: seq<T>)
    ensures NoDuplicates(r)
    ensures forall x :: x in r <==> x in xs
    decreases |xs|
  {
    if |xs| == 0 then []
    else
      var init := xs[..|xs| - 1];
      var last := xs[|xs| - 1];
      var rest := Dedupe(init);
      assert forall x :: x in xs <==> x in init || x == last;
      if last in rest then rest else rest + [last]
  }
}
