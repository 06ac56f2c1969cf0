/** Sequence building blocks shared by the loops and comprehensions of the model. */
module Sequences {
  import opened Wrappers

  /** Applying f to each element in order; the first failure stops the pass, as an exception would. */
  function MapAll<X, T, E>(f: X -> Result<T, E>, xs: seq<X>): Result<seq<T>, E> {
    if xs == [] then Success([])
    else
      var init :- MapAll(f, xs[..|xs| - 1]);
      var last :- f(xs[|xs| - 1]);
      Success(init + [last])
  }

  /** MapAll succeeds element by element, or fails with the error of the first element that fails. */
  lemma {:induction false} MapAllSpec<X, T, E>(f: X -> Result<T, E>, xs: seq<X>)
    ensures MapAll(f, xs).Success? <==> forall i :: 0 <= i < |xs| ==> f(xs[i]).Success?
    ensures MapAll(f, xs).Success? ==>
      && |MapAll(f, xs).value| == |xs|
      && forall i :: 0 <= i < |xs| ==> f(xs[i]) == Success(MapAll(f, xs).value[i])
    ensures MapAll(f, xs).Failure? ==>
      exists i :: 0 <= i < |xs| && f(xs[i]) == Failure(MapAll(f, xs).error)
                  && forall j :: 0 <= j < i ==> f(xs[j]).Success?
  {
    if xs != [] {
      var init := xs[..|xs| - 1];
      MapAllSpec(f, init);
      assert forall j :: 0 <= j < |init| ==> init[j] == xs[j];
      var r, before, last := MapAll(f, xs), MapAll(f, init), f(xs[|xs| - 1]);
      if before.Failure? {
        var i :| 0 <= i < |init| && f(init[i]) == Failure(before.error)
                 && forall j :: 0 <= j < i ==> f(init[j]).Success?;
        assert xs[i] == init[i];
      } else if last.Failure? {
        assert r.error == last.error;
        assert f(xs[|xs| - 1]) == Failure(r.error);
      } else {
        assert r.value == before.value + [last.value];
      }
    }
  }

  /** Elements that f maps to known results are collected into exactly those results. */
  lemma {:induction false} MapAllOfSuccesses<X, T, E>(f: X -> Result<T, E>, xs: seq<X>, ys: seq<T>)
    requires |xs| == |ys| && forall i :: 0 <= i < |xs| ==> f(xs[i]) == Success(ys[i])
    ensures MapAll(f, xs) == Success(ys)
  {
    if xs != [] {
      var n := |xs|;
      assert forall i :: 0 <= i < n - 1 ==> xs[..n - 1][i] == xs[i];
      MapAllOfSuccesses(f, xs[..n - 1], ys[..n - 1]);
      assert ys[..n - 1] + [ys[n - 1]] == ys;
    }
  }

  /** The elements satisfying p, in order: a loop that appends what passes its test. */
  function Filter<T>(p: T -> bool, xs: seq<T>): seq<T> {
    if xs == [] then []
    else
      var kept := Filter(p, xs[..|xs| - 1]);
      if p(xs[|xs| - 1]) then kept + [xs[|xs| - 1]] else kept
  }

  /** Everything kept passes the test. */
  lemma {:induction false} FilterOnlyPasses<T>(p: T -> bool, xs: seq<T>)
    ensures forall k :: 0 <= k < |Filter(p, xs)| ==> p(Filter(p, xs)[k])
  {
    if xs != [] {
      FilterOnlyPasses(p, xs[..|xs| - 1]);
    }
  }

  /** Everything that passes the test is kept. */
  lemma {:induction false} FilterKeepsPasses<T>(p: T -> bool, xs: seq<T>)
    ensures forall i :: 0 <= i < |xs| && p(xs[i]) ==> xs[i] in Filter(p, xs)
  {
    if xs != [] {
      var init := xs[..|xs| - 1];
      FilterKeepsPasses(p, init);
      assert forall i :: 0 <= i < |init| ==> init[i] == xs[i];
    }
  }

  /** What is kept keeps its order, so there is no more of it than there was. */
  lemma {:induction false} FilterIsSubsequence<T>(p: T -> bool, xs: seq<T>)
    ensures IsSubsequence(Filter(p, xs), xs)
    ensures |Filter(p, xs)| <= |xs|
  {
    if xs == [] {
      EmptyIsSubsequence(xs);
    } else {
      var init := xs[..|xs| - 1];
      FilterIsSubsequence(p, init);
      SubsequenceAppend(Filter(p, init), init, xs[|xs| - 1]);
      assert init + [xs[|xs| - 1]] == xs;
    }
    SubsequenceLength(Filter(p, xs), xs);
  }

  /** idx picks xs out of ys, left to right. */
  ghost predicate Embeds<T>(idx: seq<nat>, xs: seq<T>, ys: seq<T>) {
    && |idx| == |xs|
    && (forall k :: 0 <= k < |idx| ==> idx[k] < |ys| && ys[idx[k]] == xs[k])
    && (forall k, l :: 0 <= k < l < |idx| ==> idx[k] < idx[l])
  }

  /** xs is ys with some elements left out and the rest in their order. */
  ghost predicate IsSubsequence<T>(xs: seq<T>, ys: seq<T>) {
    exists idx: seq<nat> :: Embeds(idx, xs, ys)
  }

  lemma EmptyIsSubsequence<T>(ys: seq<T>)
    ensures IsSubsequence([], ys)
  {
    assert Embeds([], [], ys);
  }

  /** Appending y to ys keeps every subsequence, and extends it by y if it is kept. */
  lemma SubsequenceAppend<T>(xs: seq<T>, ys: seq<T>, y: T)
    requires IsSubsequence(xs, ys)
    ensures IsSubsequence(xs, ys + [y])
    ensures IsSubsequence(xs + [y], ys + [y])
  {
    var idx: seq<nat> :| Embeds(idx, xs, ys);
    assert Embeds(idx, xs, ys + [y]);
    assert Embeds(idx + [|ys|], xs + [y], ys + [y]);
  }

  /** A sequence that grows by nothing or by y, while ys grows by y, stays a subsequence. */
  lemma SubsequenceStep<T>(before: seq<T>, after: seq<T>, ys: seq<T>, y: T)
    requires IsSubsequence(before, ys)
    requires after == before || after == before + [y]
    ensures IsSubsequence(after, ys + [y])
  {
    SubsequenceAppend(before, ys, y);
  }

  /** A subsequence is no longer than the sequence it is taken from. */
  lemma {:induction false} SubsequenceLength<T>(xs: seq<T>, ys: seq<T>)
    requires IsSubsequence(xs, ys)
    ensures |xs| <= |ys|
  {
    var idx: seq<nat> :| Embeds(idx, xs, ys);
    StrictlyIncreasingBound(idx, |ys|);
  }

  lemma {:induction false} StrictlyIncreasingBound(idx: seq<nat>, n: nat)
    requires forall k :: 0 <= k < |idx| ==> idx[k] < n
    requires forall k, l :: 0 <= k < l < |idx| ==> idx[k] < idx[l]
    ensures |idx| <= n
  {
    if idx != [] {
      var last := idx[|idx| - 1];
      StrictlyIncreasingBound(idx[..|idx| - 1], last);
    }
  }
}
