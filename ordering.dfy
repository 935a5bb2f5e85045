/**
 * Python's ordering of strings and the collection operations the builder and
 * the comparison scripts rely on: `sorted(..., key=...)`, duplicate detection
 * with a `seen` set, and `sorted(set(...))`.
 */
module Ordering {
  import opened Wrappers

  /** Python's `a <= b` on `str`: lexicographic by code point. */
  predicate LessEq(a: string, b: string)
    decreases |a|
  {
    a == [] || (b != [] && (a[0] < b[0] || (a[0] == b[0] && LessEq(a[1..], b[1..]))))
  }

  lemma {:induction false} LessEqTotal(a: string, b: string)
    ensures LessEq(a, b) || LessEq(b, a)
    decreases |a|
  {
    if a != [] && b != [] && a[0] == b[0] {
      LessEqTotal(a[1..], b[1..]);
    }
  }

  lemma {:induction false} LessEqTrans(a: string, b: string, c: string)
    requires LessEq(a, b) && LessEq(b, c)
    ensures LessEq(a, c)
    decreases |a|
  {
    if a != [] && b != [] && c != [] && a[0] == b[0] == c[0] {
      LessEqTrans(a[1..], b[1..], c[1..]);
    }
  }

  lemma {:induction false} LessEqAntisym(a: string, b: string)
    requires LessEq(a, b) && LessEq(b, a)
    ensures a == b
    decreases |a|
  {
    if a != [] && b != [] {
      LessEqAntisym(a[1..], b[1..]);
      assert a == [a[0]] + a[1..] && b == [b[0]] + b[1..];
    }
  }

  /** Ascending by `key`. */
  predicate SortedBy<T>(s: seq<T>, key: T -> string) {
    forall i, j :: 0 <= i < j < |s| ==> LessEq(key(s[i]), key(s[j]))
  }

  predicate Distinct<T(==)>(s: seq<T>) {
    forall i, j :: 0 <= i < j < |s| ==> s[i] != s[j]
  }

  /** Inserts `x` into a list already ascending by `key`. */
  function InsertBy<T>(x: T, s: seq<T>, key: T -> string): (r: seq<T>)
    requires SortedBy(s, key)
    ensures SortedBy(r, key)
    ensures multiset(r) == multiset(s) + multiset{x}
    ensures |r| == |s| + 1
  {
    if s == [] then [x]
    else if LessEq(key(x), key(s[0])) then
      assert forall j :: 0 < j < |s| ==> LessEq(key(x), key(s[j])) by {
        forall j | 0 < j < |s| ensures LessEq(key(x), key(s[j])) {
          LessEqTrans(key(x), key(s[0]), key(s[j]));
        }
      }
      [x] + s
    else
      LessEqTotal(key(x), key(s[0]));
      var rest := InsertBy(x, s[1..], key);
      assert s == [s[0]] + s[1..];
      InsertedAbove(s[0], x, s[1..], rest, key);
      ConsSorted(s[0], rest, key);
      [s[0]] + rest
  }

  /** A value no greater than `x` and than every element of `s` is no greater than any element of `s` with `x` added. */
  lemma InsertedAbove<T>(h: T, x: T, s: seq<T>, r: seq<T>, key: T -> string)
    requires LessEq(key(h), key(x))
    requires forall j :: 0 <= j < |s| ==> LessEq(key(h), key(s[j]))
    requires multiset(r) == multiset(s) + multiset{x}
    ensures forall j :: 0 <= j < |r| ==> LessEq(key(h), key(r[j]))
  {
    forall j | 0 <= j < |r| ensures LessEq(key(h), key(r[j])) {
      assert r[j] in multiset(r);
      if r[j] != x {
        assert r[j] in multiset(s);
        var k :| 0 <= k < |s| && s[k] == r[j];
      }
    }
  }

  /** A sorted list stays sorted under a new head no greater than any of its elements. */
  lemma ConsSorted<T>(h: T, r: seq<T>, key: T -> string)
    requires SortedBy(r, key)
    requires forall j :: 0 <= j < |r| ==> LessEq(key(h), key(r[j]))
    ensures SortedBy([h] + r, key)
  {
    var t := [h] + r;
    forall i, j | 0 <= i < j < |t| ensures LessEq(key(t[i]), key(t[j])) {
      assert t[j] == r[j - 1];
      if i > 0 {
        assert t[i] == r[i - 1];
      }
    }
  }

  /** `sorted(s, key=key)`: an ascending permutation of `s`. */
  function SortBy<T>(s: seq<T>, key: T -> string): (r: seq<T>)
    ensures SortedBy(r, key)
    ensures multiset(r) == multiset(s)
    ensures |r| == |s|
  {
    if s == [] then []
    else
      assert s == [s[0]] + s[1..];
      InsertBy(s[0], SortBy(s[1..], key), key)
  }

  /** No two elements share a key. */
  predicate DistinctBy<T>(s: seq<T>, key: T -> string) {
    forall i, j :: 0 <= i < j < |s| ==> key(s[i]) != key(s[j])
  }

  lemma {:induction false} InsertByDistinct<T>(x: T, s: seq<T>, key: T -> string)
    requires SortedBy(s, key) && DistinctBy(s, key)
    requires forall i :: 0 <= i < |s| ==> key(s[i]) != key(x)
    ensures DistinctBy(InsertBy(x, s, key), key)
  {
    if s != [] && !LessEq(key(x), key(s[0])) {
      var rest := InsertBy(x, s[1..], key);
      InsertByDistinct(x, s[1..], key);
      var r := [s[0]] + rest;
      assert r == InsertBy(x, s, key);
      forall j | 0 < j < |r|
        ensures key(r[0]) != key(r[j])
      {
        assert r[j] in multiset(rest);
        if r[j] != x {
          assert r[j] in multiset(s[1..]);
          var k :| 0 <= k < |s[1..]| && s[1..][k] == r[j];
          assert s[k + 1] == r[j];
        }
      }
    }
  }

  /** Sorting keeps keys apart when they were apart. */
  lemma {:induction false} SortByDistinct<T>(s: seq<T>, key: T -> string)
    requires DistinctBy(s, key)
    ensures DistinctBy(SortBy(s, key), key)
  {
    if s != [] {
      var rest := SortBy(s[1..], key);
      SortByDistinct(s[1..], key);
      forall i | 0 <= i < |rest|
        ensures key(rest[i]) != key(s[0])
      {
        assert rest[i] in multiset(s[1..]);
        var k :| 0 <= k < |s[1..]| && s[1..][k] == rest[i];
        assert s[k + 1] == rest[i];
      }
      InsertByDistinct(s[0], rest, key);
    }
  }

  /** `sorted(s)` on strings: the same strings in ascending order. */
  function Sorted(s: seq<string>): (r: seq<string>)
    ensures SortedBy(r, Identity)
    ensures multiset(r) == multiset(s)
  {
    SortBy(s, Identity)
  }

  function Identity(x: string): string { x }

  /**
   * The position at which a left-to-right scan that remembers what it has
   * seen first meets a value again, or nothing when all values differ.
   */
  function FirstRepeat<T(==)>(s: seq<T>): (r: Option<nat>)
    ensures r.None? <==> Distinct(s)
    ensures r.Some? ==> r.value < |s| && s[r.value] in s[..r.value] && Distinct(s[..r.value])
  {
    FirstRepeatFrom(s, 0)
  }

  function FirstRepeatFrom<T(==)>(s: seq<T>, i: nat): (r: Option<nat>)
    requires i <= |s| && Distinct(s[..i])
    ensures r.None? <==> Distinct(s)
    ensures r.Some? ==> i <= r.value < |s| && s[r.value] in s[..r.value] && Distinct(s[..r.value])
    decreases |s| - i
  {
    if i == |s| then
      assert s[..i] == s;
      None
    else if s[i] in s[..i] then
      Some(i)
    else
      assert s[..i + 1] == s[..i] + [s[i]];
      FirstRepeatFrom(s, i + 1)
  }

  /** `list(dict.fromkeys(s))`: the distinct elements of `s` in first-seen order. */
  function Dedup<T(==)>(s: seq<T>): (r: seq<T>)
    ensures Distinct(r)
    ensures forall i :: 0 <= i < |r| ==> r[i] in s
    ensures forall i :: 0 <= i < |s| ==> s[i] in r
    ensures |r| <= |s|
  {
    if s == [] then []
    else
      var d := Dedup(s[..|s| - 1]);
      assert s == s[..|s| - 1] + [s[|s| - 1]];
      if s[|s| - 1] in d then d else d + [s[|s| - 1]]
  }

  /** A finite non-empty set of strings has a least element. */
  lemma {:induction false} HasLeast(s: set<string>) returns (m: string)
    requires s != {}
    ensures m in s && forall x :: x in s ==> LessEq(m, x)
    decreases |s|
  {
    var y :| y in s;
    if s == {y} {
      m := y;
      LessEqTotal(y, y);
    } else {
      var m' := HasLeast(s - {y});
      LessEqTotal(y, m');
      if LessEq(y, m') {
        m := y;
        forall x | x in s ensures LessEq(m, x) {
          if x != y {
            LessEqTrans(y, m', x);
          } else {
            LessEqTotal(y, y);
          }
        }
      } else {
        m := m';
      }
    }
  }

  /** `m` is in `s` and no element of `s` is below it. */
  predicate IsLeast(m: string, s: set<string>) {
    m in s && forall x :: x in s ==> LessEq(m, x)
  }

  /** The least element exists and is unique. */
  lemma LeastUnique(s: set<string>)
    requires s != {}
    ensures exists m :: IsLeast(m, s)
    ensures forall m1, m2 :: IsLeast(m1, s) && IsLeast(m2, s) ==> m1 == m2
  {
    var m := HasLeast(s);
    assert IsLeast(m, s);
    forall m1, m2 | IsLeast(m1, s) && IsLeast(m2, s)
      ensures m1 == m2
    {
      LessEqAntisym(m1, m2);
    }
  }

  /** `min(s)`: the least element of a non-empty set. */
  function Least(s: set<string>): (m: string)
    requires s != {}
    ensures IsLeast(m, s)
  {
    LeastUnique(s);
    var m :| IsLeast(m, s);
    m
  }

  /** `sorted(s)` for a set of strings: its elements, each once, ascending. */
  function SortedSet(s: set<string>): (r: seq<string>)
    ensures SortedBy(r, Identity) && Distinct(r) && |r| == |s|
    ensures forall x :: x in r <==> x in s
    decreases |s|
  {
    if s == {} then []
    else
      var m := Least(s);
      var rest := SortedSet(s - {m});
      LeastFirst(m, rest, s);
      [m] + rest
  }

  /** Putting the least element in front of a sorted listing of the others sorts the whole set. */
  lemma LeastFirst(m: string, rest: seq<string>, s: set<string>)
    requires IsLeast(m, s)
    requires SortedBy(rest, Identity) && Distinct(rest) && |rest| == |s - {m}|
    requires forall x :: x in rest <==> x in s - {m}
    ensures SortedBy([m] + rest, Identity) && Distinct([m] + rest) && |[m] + rest| == |s|
    ensures forall x :: x in [m] + rest <==> x in s
  {
    var r := [m] + rest;
    forall i, j | 0 <= i < j < |r|
      ensures LessEq(Identity(r[i]), Identity(r[j])) && r[i] != r[j]
    {
      assert r[j] == rest[j - 1] && r[j] in s - {m};
      if i > 0 {
        assert r[i] == rest[i - 1];
      }
    }
  }

  /** Joining two repeat-free lists with nothing in common keeps them repeat-free. */
  lemma DistinctConcat<T>(a: seq<T>, b: seq<T>)
    requires Distinct(a) && Distinct(b)
    requires forall x :: x in a ==> x !in b
    ensures Distinct(a + b)
  {
    forall i, j | 0 <= i < j < |a + b|
      ensures (a + b)[i] != (a + b)[j]
    {
      if i < |a| && j >= |a| {
        assert (a + b)[i] in a && (a + b)[j] in b;
      }
    }
  }

  /** The number of elements of `s` satisfying `p`. */
  function CountIf(s: seq<string>, p: string -> bool): (r: nat)
    ensures r <= |s|
  {
    if s == [] then 0 else CountIf(s[..|s| - 1], p) + (if p(s[|s| - 1]) then 1 else 0)
  }

  /** Over a repeat-free list, the count is the size of the set of elements satisfying `p`. */
  lemma {:induction false} CountIfCard(s: seq<string>, p: string -> bool)
    requires Distinct(s)
    ensures CountIf(s, p) == |set x | x in s && p(x)|
  {
    if s != [] {
      var k := |s| - 1;
      var x := s[k];
      CountIfCard(s[..k], p);
      assert x !in s[..k];
      assert (set y | y in s && p(y)) == (set y | y in s[..k] && p(y)) + (if p(x) then {x} else {});
    }
  }

  /** The count over a repeat-free listing of a set is the size of the matching subset. */
  lemma CountIfSet(s: seq<string>, xs: set<string>, p: string -> bool)
    requires Distinct(s) && forall x :: x in s <==> x in xs
    ensures CountIf(s, p) == |set x | x in xs && p(x)|
  {
    CountIfCard(s, p);
    assert (set x | x in s && p(x)) == (set x | x in xs && p(x));
  }

  /** A repeat-free list has as many elements as the set of its elements. */
  lemma {:induction false} DistinctCard<T>(s: seq<T>)
    requires Distinct(s)
    ensures |set x | x in s| == |s|
  {
    if s != [] {
      var n := |s| - 1;
      DistinctCard(s[..n]);
      assert s[n] !in s[..n];
      assert (set x | x in s) == (set x | x in s[..n]) + {s[n]};
    }
  }
}
