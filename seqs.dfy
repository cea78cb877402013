/**
 * Order-preserving selection from a sequence, the shape shared by `dropna`,
 * boolean-mask indexing and `apply` followed by `dropna` in the cleaners.
 */
module Seqs {
  import opened Wrappers

  /** Keeps, in order, the images of the elements on which `f` is defined. */
  function FilterMap<T, U>(s: seq<T>, f: T -> Option<U>): (r: seq<U>)
    ensures |r| <= |s|
  {
    if s == [] then []
    else
      FilterMap(s[..|s| - 1], f) + (match f(s[|s| - 1]) case Some(y) => [y] case None => [])
  }

  predicate StrictlyIncreasing(xs: seq<int>)
  {
    forall i, j :: 0 <= i < j < |xs| ==> xs[i] < xs[j]
  }

  /**
   * The positions of `s` that `FilterMap(s, f)` keeps. Its contract is the
   * complete description of an order-preserving filter: the kept positions are
   * increasing, they are exactly those where `f` is defined, and the j-th
   * output is the image of the j-th kept position.
   */
  function KeptIndices<T, U>(s: seq<T>, f: T -> Option<U>): (idx: seq<int>)
    ensures |idx| == |FilterMap(s, f)|
    ensures StrictlyIncreasing(idx)
    ensures forall j :: 0 <= j < |idx| ==> 0 <= idx[j] < |s| && f(s[idx[j]]) == Some(FilterMap(s, f)[j])
    ensures forall i :: 0 <= i < |s| ==> (f(s[i]).Some? <==> i in idx)
  {
    if s == [] then []
    else
      var n := |s| - 1;
      var rest := KeptIndices(s[..n], f);
      var out := FilterMap(s, f);
      assert out[..|FilterMap(s[..n], f)|] == FilterMap(s[..n], f);
      assert forall j :: 0 <= j < |rest| ==> s[..n][rest[j]] == s[rest[j]];
      assert forall i :: 0 <= i < n ==> s[..n][i] == s[i];
      if f(s[n]).Some? then
        assert out[|rest|] == f(s[n]).value;
        rest + [n]
      else
        rest
  }

  /** Number of elements on which `f` is undefined (the cells that became missing). */
  function CountNone<T, U>(s: seq<T>, f: T -> Option<U>): (n: nat)
  {
    if s == [] then 0 else CountNone(s[..|s| - 1], f) + (if f(s[|s| - 1]).None? then 1 else 0)
  }

  /** What `FilterMap` drops is what `CountNone` counts: nothing else is lost. */
  lemma {:induction false} FilterMapCount<T, U>(s: seq<T>, f: T -> Option<U>)
    ensures |FilterMap(s, f)| + CountNone(s, f) == |s|
  {
    if s != [] {
      FilterMapCount(s[..|s| - 1], f);
    }
  }

  /** Every kept element is the image of some element of the input. */
  lemma FilterMapSound<T, U>(s: seq<T>, f: T -> Option<U>, y: U)
    requires y in FilterMap(s, f)
    ensures exists i :: 0 <= i < |s| && f(s[i]) == Some(y)
  {
    var idx := KeptIndices(s, f);
    var j :| 0 <= j < |FilterMap(s, f)| && FilterMap(s, f)[j] == y;
    assert f(s[idx[j]]) == Some(y);
  }

  /** Every element on which `f` is defined contributes its image. */
  lemma FilterMapComplete<T, U>(s: seq<T>, f: T -> Option<U>, i: int)
    requires 0 <= i < |s| && f(s[i]).Some?
    ensures f(s[i]).value in FilterMap(s, f)
  {
    var idx := KeptIndices(s, f);
    assert i in idx;
    var j :| 0 <= j < |idx| && idx[j] == i;
  }

  lemma FilterMapSnoc<T, U>(s: seq<T>, x: T, f: T -> Option<U>)
    ensures FilterMap(s + [x], f) == FilterMap(s, f) + (match f(x) case Some(y) => [y] case None => [])
  {
    assert (s + [x])[..|s|] == s;
  }

  lemma {:induction false} FilterMapAppend<T, U>(a: seq<T>, b: seq<T>, f: T -> Option<U>)
    ensures FilterMap(a + b, f) == FilterMap(a, f) + FilterMap(b, f)
    decreases |b|
  {
    if b == [] {
      assert a + b == a;
    } else {
      var n := |b| - 1;
      assert (a + b)[..|a + b| - 1] == a + b[..n];
      assert (a + b)[|a + b| - 1] == b[n];
      FilterMapAppend(a, b[..n], f);
    }
  }

  /** Selects the elements on which `p` has the value `keep`. */
  function Keep<T>(p: T -> bool, keep: bool): T -> Option<T>
  {
    x => if p(x) == keep then Some(x) else None
  }

  function Filter<T>(s: seq<T>, p: T -> bool, keep: bool): seq<T>
  {
    FilterMap(s, Keep(p, keep))
  }

  lemma FilterSnoc<T>(s: seq<T>, x: T, p: T -> bool, keep: bool)
    ensures Filter(s + [x], p, keep) == Filter(s, p, keep) + (if p(x) == keep then [x] else [])
  {
    FilterMapSnoc(s, x, Keep(p, keep));
    assert Keep(p, keep)(x) == if p(x) == keep then Some(x) else None;
  }

  /** Each part of a split agrees with the mask. */
  lemma FilterAgrees<T>(s: seq<T>, p: T -> bool, keep: bool, x: T)
    requires x in Filter(s, p, keep)
    ensures p(x) == keep
  {
    FilterMapSound(s, Keep(p, keep), x);
  }

  /**
   * A boolean mask and its negation split a table: the two parts together
   * hold every element exactly once.
   */
  lemma {:induction false} Partition<T>(s: seq<T>, p: T -> bool)
    ensures multiset(Filter(s, p, true)) + multiset(Filter(s, p, false)) == multiset(s)
    ensures |Filter(s, p, true)| + |Filter(s, p, false)| == |s|
  {
    if s != [] {
      var init, x := s[..|s| - 1], s[|s| - 1];
      assert s == init + [x];
      Partition(init, p);
      PartitionStep(init, x, p);
    }
  }

  lemma PartitionStep<T>(init: seq<T>, x: T, p: T -> bool)
    requires multiset(Filter(init, p, true)) + multiset(Filter(init, p, false)) == multiset(init)
    ensures multiset(Filter(init + [x], p, true)) + multiset(Filter(init + [x], p, false)) == multiset(init + [x])
    ensures |Filter(init + [x], p, true)| + |Filter(init + [x], p, false)| == |Filter(init, p, true)| + |Filter(init, p, false)| + 1
  {
    FilterSnoc(init, x, p, true);
    FilterSnoc(init, x, p, false);
    var a, b := Filter(init, p, true), Filter(init, p, false);
    assert multiset(init + [x]) == multiset(init) + multiset{x};
    if p(x) {
      assert multiset(a + [x]) == multiset(a) + multiset{x};
    } else {
      assert multiset(b + [x]) == multiset(b) + multiset{x};
    }
  }

  lemma {:induction false} IncreasingCardinality(idx: seq<int>)
    requires StrictlyIncreasing(idx)
    ensures |set i | i in idx| == |idx|
  {
    if idx != [] {
      var n := |idx| - 1;
      IncreasingCardinality(idx[..n]);
      assert (set i | i in idx) == (set i | i in idx[..n]) + {idx[n]} by {
        assert idx == idx[..n] + [idx[n]];
      }
      assert idx[n] !in (set i | i in idx[..n]);
    }
  }

  /** The positions at which `f` is defined. */
  function DefinedAt<T, U>(s: seq<T>, f: T -> Option<U>): set<int>
  {
    set i | 0 <= i < |s| && f(s[i]).Some?
  }

  /** The number of kept elements is the number of positions where `f` is defined. */
  lemma FilterMapSize<T, U>(s: seq<T>, f: T -> Option<U>)
    ensures |FilterMap(s, f)| == |DefinedAt(s, f)|
  {
    var idx := KeptIndices(s, f);
    IncreasingCardinality(idx);
    assert (set i | i in idx) == DefinedAt(s, f);
  }

  /** Each element expands to a block of outputs; the blocks are concatenated in input order. */
  function FlatMap<T, U>(s: seq<T>, g: T -> seq<U>): seq<U>
  {
    if s == [] then [] else FlatMap(s[..|s| - 1], g) + g(s[|s| - 1])
  }

  lemma {:induction false} FlatMapAppend<T, U>(a: seq<T>, b: seq<T>, g: T -> seq<U>)
    ensures FlatMap(a + b, g) == FlatMap(a, g) + FlatMap(b, g)
    decreases |b|
  {
    if b == [] {
      assert a + b == a;
    } else {
      var n := |b| - 1;
      var c := a + b;
      assert c[..|c| - 1] == a + b[..n];
      assert c[|c| - 1] == b[n];
      FlatMapAppend(a, b[..n], g);
    }
  }

  /** An output comes from the block of some input element. */
  lemma {:induction false} FlatMapSound<T, U>(s: seq<T>, g: T -> seq<U>, y: U)
    requires y in FlatMap(s, g)
    ensures exists i :: 0 <= i < |s| && y in g(s[i])
  {
    var n := |s| - 1;
    if y in FlatMap(s[..n], g) {
      FlatMapSound(s[..n], g, y);
      var i :| 0 <= i < n && y in g(s[..n][i]);
      assert s[..n][i] == s[i];
    }
  }

  /** The whole block of every input element is part of the output. */
  lemma {:induction false} FlatMapComplete<T, U>(s: seq<T>, g: T -> seq<U>, i: int, y: U)
    requires 0 <= i < |s| && y in g(s[i])
    ensures y in FlatMap(s, g)
  {
    var n := |s| - 1;
    if i < n {
      assert s[..n][i] == s[i];
      FlatMapComplete(s[..n], g, i, y);
    }
  }

  /** When every block is a single element the output lines up with the input. */
  lemma {:induction false} FlatMapSingletons<T, U>(s: seq<T>, g: T -> seq<U>)
    requires forall i :: 0 <= i < |s| ==> |g(s[i])| == 1
    ensures |FlatMap(s, g)| == |s|
    ensures forall i :: 0 <= i < |s| ==> FlatMap(s, g)[i] == g(s[i])[0]
  {
    if s != [] {
      var n := |s| - 1;
      assert forall i :: 0 <= i < n ==> s[..n][i] == s[i];
      FlatMapSingletons(s[..n], g);
    }
  }
}
