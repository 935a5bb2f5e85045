/** Failure-carrying values, and a search over sequences, shared by every module of the model. */
module Wrappers {

  /** A value that may be absent: Python's `None` or a present value. */
  datatype Option<+T> = None | Some(value: T)

  /** The outcome of an operation that Python would end by raising an exception. */
  datatype Result<+T, +E> = Ok(value: T) | Err(error: E)

  /** Some element of `xs` passes `test`. */
  predicate AnyOf<T>(xs: seq<T>, test: T -> bool)
  {
    exists j :: 0 <= j < |xs| && test(xs[j])
  }

  /** An element that passes is one of all but the last element, or the last. */
  lemma AnyOfLast<T>(xs: seq<T>, test: T -> bool)
    requires xs != []
    ensures AnyOf(xs, test) <==> AnyOf(xs[..|xs| - 1], test) || test(xs[|xs| - 1])
  {
    var init := xs[..|xs| - 1];
    if AnyOf(xs, test) {
      var j :| 0 <= j < |xs| && test(xs[j]);
      if j < |init| {
        assert test(init[j]);
      }
    }
    if AnyOf(init, test) {
      var j :| 0 <= j < |init| && test(init[j]);
      assert test(xs[j]);
    }
  }

  /** An element that passes is one after the first. */
  lemma AnyOfTail<T>(xs: seq<T>, test: T -> bool)
    requires xs != []
    ensures AnyOf(xs[1..], test) <==> exists j :: 1 <= j < |xs| && test(xs[j])
  {
    if AnyOf(xs[1..], test) {
      var j :| 0 <= j < |xs| - 1 && test(xs[1..][j]);
      assert test(xs[j + 1]);
    }
    if exists j :: 1 <= j < |xs| && test(xs[j]) {
      var j :| 1 <= j < |xs| && test(xs[j]);
      assert test(xs[1..][j - 1]);
    }
  }

  /** `p` is a prefix of `r`. */
  ghost predicate IsPrefix<T>(p: seq<T>, r: seq<T>)
  {
    |p| <= |r| && r[..|p|] == p
  }

  /** A prefix of a prefix is a prefix. */
  lemma PrefixOfPrefix<T>(r: seq<T>, q: seq<T>, p: seq<T>)
    requires IsPrefix(q, r) && IsPrefix(p, q)
    ensures IsPrefix(p, r)
  {
    assert r[..|p|] == r[..|q|][..|p|];
  }
}
