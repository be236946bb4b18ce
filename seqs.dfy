/** Array.prototype.filter, Array.prototype.map and a flat map, as functions on
    sequences, with the fact that each works element by element. */
module Seqs {

  /** Array.prototype.filter: the elements that satisfy `p`, in order. */
  function Filter<T>(s: seq<T>, p: T -> bool): (r: seq<T>)
    ensures |r| <= |s|
  {
    if s == [] then [] else Filter(s[..|s| - 1], p) + if p(s[|s| - 1]) then [s[|s| - 1]] else []
  }

  /** Everything the filter keeps satisfies `p` and comes from `s`, and every
      element of `s` that satisfies `p` is kept. */
  lemma {:induction false} FilterSpec<T>(s: seq<T>, p: T -> bool)
    ensures forall k :: 0 <= k < |Filter(s, p)| ==> p(Filter(s, p)[k]) && Filter(s, p)[k] in s
    ensures forall k :: 0 <= k < |s| && p(s[k]) ==> s[k] in Filter(s, p)
  {
    if s != [] {
      var init := s[..|s| - 1];
      FilterSpec(init, p);
      var r, ri := Filter(s, p), Filter(init, p);
      assert forall k :: 0 <= k < |ri| ==> r[k] == ri[k];
      assert forall k :: 0 <= k < |s| - 1 ==> s[k] == init[k];
    }
  }

  /** Dropping the last element of a concatenation with a non-empty tail. */
  lemma InitOfAppend<T>(a: seq<T>, b: seq<T>)
    requires |b| > 0
    ensures (a + b)[..|a + b| - 1] == a + b[..|b| - 1]
  {
  }

  lemma {:induction false} FilterAppend<T>(a: seq<T>, b: seq<T>, p: T -> bool)
    ensures Filter(a + b, p) == Filter(a, p) + Filter(b, p)
  {
    if b == [] {
      assert a + b == a;
    } else {
      FilterAppend(a, b[..|b| - 1], p);
      InitOfAppend(a, b);
    }
  }

  /** Array.prototype.map: `f` applied to every element, in order. */
  function Map<T, U>(s: seq<T>, f: T -> U): (r: seq<U>)
    ensures |r| == |s|
  {
    seq(|s|, i requires 0 <= i < |s| => f(s[i]))
  }

  lemma MapAppend<T, U>(a: seq<T>, b: seq<T>, f: T -> U)
    ensures Map(a + b, f) == Map(a, f) + Map(b, f)
  {
  }

  /** The concatenation of `f` applied to every element, in order. */
  function FlatMap<T, U>(s: seq<T>, f: T -> seq<U>): seq<U> {
    if s == [] then [] else FlatMap(s[..|s| - 1], f) + f(s[|s| - 1])
  }

  lemma {:induction false} FlatMapAppend<T, U>(a: seq<T>, b: seq<T>, f: T -> seq<U>)
    ensures FlatMap(a + b, f) == FlatMap(a, f) + FlatMap(b, f)
  {
    if b == [] {
      assert a + b == a;
    } else {
      var init, last := b[..|b| - 1], b[|b| - 1];
      FlatMapAppend(a, init, f);
      InitOfAppend(a, b);
      assert (a + b)[|a + b| - 1] == last;
      assert FlatMap(a + b, f) == FlatMap(a + init, f) + f(last);
      AppendAssoc(FlatMap(a, f), FlatMap(init, f), f(last));
    }
  }

  lemma FlatMapSingle<T, U>(x: T, f: T -> seq<U>)
    ensures FlatMap([x], f) == f(x)
  {
  }

  lemma HeadTail<T>(s: seq<T>)
    requires |s| > 0
    ensures [s[0]] + s[1..] == s
  {
  }

  lemma InitLast<T>(s: seq<T>)
    requires |s| > 0
    ensures s[..|s| - 1] + [s[|s| - 1]] == s
  {
  }

  lemma AppendAssoc<T>(a: seq<T>, b: seq<T>, c: seq<T>)
    ensures a + (b + c) == (a + b) + c
  {
  }

  lemma SliceThree<T>(s: seq<T>, i: int, j: int)
    requires 0 <= i <= j <= |s|
    ensures s == s[..i] + s[i..j] + s[j..]
  {
  }

  lemma SliceSplit<T>(s: seq<T>, i: int, j: int, k: int, l: int)
    requires 0 <= i <= j <= k <= l <= |s|
    ensures s[i..l] == s[i..j] + s[j..k] + s[k..l]
  {
  }

  lemma TakeSnoc<T>(s: seq<T>, i: int)
    requires 0 <= i < |s|
    ensures s[..i + 1] == s[..i] + [s[i]]
  {
  }
}
