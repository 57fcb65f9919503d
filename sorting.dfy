/** Sequence operations behind pandas' multi-column `sort_values`, SQL `DISTINCT`
    and boolean row selection: a stable insertion sort, counting and filtering. */
module Sorting {

  /** `less` is a strict weak order: asymmetric, and incomparability is transitive
      (the order that a lexicographic comparison of sort keys gives). */
  ghost predicate StrictWeakOrder<T(!new)>(less: (T, T) -> bool) {
    && (forall a, b :: less(a, b) ==> !less(b, a))
    && (forall a, b, c :: less(a, c) ==> less(a, b) || less(b, c))
  }

  /** No element is strictly smaller than an element before it. */
  ghost predicate NoInversion<T>(s: seq<T>, less: (T, T) -> bool) {
    forall i, j :: 0 <= i < j < |s| ==> !less(s[j], s[i])
  }

  /** Inserts `x` before the first element that is not smaller than it, so that `x`
      stays ahead of the elements it ties with. */
  function Insert<T>(x: T, s: seq<T>, less: (T, T) -> bool): (r: seq<T>)
    ensures |r| == |s| + 1
    ensures multiset(r) == multiset(s) + multiset{x}
  {
    if s == [] then [x]
    else if less(s[0], x) then
      assert s == [s[0]] + s[1..];
      [s[0]] + Insert(x, s[1..], less)
    else [x] + s
  }

  /** Stable insertion sort: equal keys keep their input order. */
  function Sort<T>(s: seq<T>, less: (T, T) -> bool): (r: seq<T>)
    ensures |r| == |s|
    ensures multiset(r) == multiset(s)
  {
    if s == [] then []
    else
      assert s == [s[0]] + s[1..];
      Insert(s[0], Sort(s[1..], less), less)
  }

  lemma {:induction false} InsertKeepsOrder<T(!new)>(x: T, s: seq<T>, less: (T, T) -> bool)
    requires StrictWeakOrder(less)
    requires NoInversion(s, less)
    ensures NoInversion(Insert(x, s, less), less)
    decreases |s|
  {
    if s != [] && less(s[0], x) {
      var t := Insert(x, s[1..], less);
      InsertKeepsOrder(x, s[1..], less);
      var r := [s[0]] + t;
      forall j | 0 < j < |r| ensures !less(r[j], s[0]) {
        assert r[j] in multiset(t);
        assert r[j] == x || r[j] in multiset(s[1..]);
        if r[j] != x {
          var k :| 0 <= k < |s[1..]| && s[1..][k] == r[j];
          assert s[k + 1] == r[j];
        }
      }
    }
  }

  /** Sorting leaves no inversion. */
  lemma {:induction false} SortIsOrdered<T(!new)>(s: seq<T>, less: (T, T) -> bool)
    requires StrictWeakOrder(less)
    ensures NoInversion(Sort(s, less), less)
    decreases |s|
  {
    if s != [] {
      SortIsOrdered(s[1..], less);
      InsertKeepsOrder(s[0], Sort(s[1..], less), less);
    }
  }

  // ---------------------------------------------------------------------------
  // counting and selection

  /** The number of elements of `s` satisfying `p`. */
  function CountIf<T>(s: seq<T>, p: T -> bool): (n: nat)
    ensures n <= |s|
  {
    if s == [] then 0 else CountIf(s[..|s| - 1], p) + (if p(s[|s| - 1]) then 1 else 0)
  }

  lemma {:induction false} CountIfAppend<T>(a: seq<T>, b: seq<T>, p: T -> bool)
    ensures CountIf(a + b, p) == CountIf(a, p) + CountIf(b, p)
    decreases |b|
  {
    if b != [] {
      assert (a + b)[..|a + b| - 1] == a + b[..|b| - 1];
      CountIfAppend(a, b[..|b| - 1], p);
    } else {
      assert a + b == a;
    }
  }

  /** Counting does not depend on the order of the elements. */
  lemma {:induction false} CountIfPermutation<T>(s: seq<T>, r: seq<T>, p: T -> bool)
    requires multiset(s) == multiset(r)
    ensures CountIf(s, p) == CountIf(r, p)
    decreases |s|
  {
    if s == [] {
      assert |multiset(r)| == 0;
    } else {
      var x := s[|s| - 1];
      assert s == s[..|s| - 1] + [x];
      assert x in multiset(r);
      var j :| 0 <= j < |r| && r[j] == x;
      assert r == r[..j] + [x] + r[j + 1..];
      var r' := r[..j] + r[j + 1..];
      assert multiset(r') == multiset(r) - multiset{x};
      assert multiset(s[..|s| - 1]) == multiset(s) - multiset{x};
      CountIfPermutation(s[..|s| - 1], r', p);
      CountIfAppend(r[..j] + [x], r[j + 1..], p);
      CountIfAppend(r[..j], [x], p);
      CountIfAppend(r[..j], r[j + 1..], p);
      assert CountIf([x], p) == (if p(x) then 1 else 0) by {
        assert [x][..0] == [];
      }
    }
  }

  /** An element satisfying `p` is counted. */
  lemma {:induction false} CountIfPositive<T>(s: seq<T>, p: T -> bool, i: nat)
    requires i < |s| && p(s[i])
    ensures CountIf(s, p) >= 1
    decreases |s|
  {
    if i < |s| - 1 {
      CountIfPositive(s[..|s| - 1], p, i);
    }
  }

  /** Some element satisfies `p` when the count is positive. */
  lemma {:induction false} CountIfWitness<T>(s: seq<T>, p: T -> bool) returns (i: nat)
    requires CountIf(s, p) > 0
    ensures i < |s| && p(s[i])
    decreases |s|
  {
    if p(s[|s| - 1]) {
      i := |s| - 1;
    } else {
      i := CountIfWitness(s[..|s| - 1], p);
    }
  }

  /** An element failing `p` is not counted. */
  lemma {:induction false} CountIfBelow<T>(s: seq<T>, p: T -> bool, i: nat)
    requires i < |s| && !p(s[i])
    ensures CountIf(s, p) < |s|
    decreases |s|
  {
    if i < |s| - 1 {
      CountIfBelow(s[..|s| - 1], p, i);
    }
  }

  /** `s[mask]`: the elements satisfying `p`, in their order. */
  function Filter<T(!new)>(s: seq<T>, p: T -> bool): (r: seq<T>)
    ensures |r| == CountIf(s, p)
  {
    if s == [] then []
    else
      var r := Filter(s[..|s| - 1], p) + (if p(s[|s| - 1]) then [s[|s| - 1]] else []);
      assert s == s[..|s| - 1] + [s[|s| - 1]];
      r
  }

  /** Filtering by two tests that agree on the elements gives the same result. */
  lemma {:induction false} FilterAgree<T(!new)>(s: seq<T>, p: T -> bool, q: T -> bool)
    requires forall k :: 0 <= k < |s| ==> p(s[k]) == q(s[k])
    ensures Filter(s, p) == Filter(s, q)
    decreases |s|
  {
    if s != [] {
      var n := |s| - 1;
      var init := s[..n];
      forall k | 0 <= k < |init| ensures p(init[k]) == q(init[k]) {
        assert init[k] == s[k];
      }
      FilterAgree(init, p, q);
      FilterLast(s, p);
      FilterLast(s, q);
    }
  }

  /** The selected elements are the elements that pass the test. */
  lemma {:induction false} FilterMembers<T(!new)>(s: seq<T>, p: T -> bool)
    ensures forall x :: x in Filter(s, p) <==> x in s && p(x)
    decreases |s|
  {
    if s != [] {
      FilterMembers(s[..|s| - 1], p);
      assert s == s[..|s| - 1] + [s[|s| - 1]];
    }
  }

  lemma FilterLast<T(!new)>(s: seq<T>, p: T -> bool)
    requires s != []
    ensures Filter(s, p) == Filter(s[..|s| - 1], p) + (if p(s[|s| - 1]) then [s[|s| - 1]] else [])
  {
  }

  /** No value occurs twice. */
  predicate NoDuplicates<T(==)>(s: seq<T>) {
    forall i, j :: 0 <= i < j < |s| ==> s[i] != s[j]
  }

  /** SQL `DISTINCT`: each value once, at its first occurrence. */
  function Distinct<T(==,!new)>(s: seq<T>): (r: seq<T>)
    ensures NoDuplicates(r)
    ensures forall x :: x in r <==> x in s
  {
    if s == [] then []
    else
      var d := Distinct(s[..|s| - 1]);
      assert s == s[..|s| - 1] + [s[|s| - 1]];
      if s[|s| - 1] in d then d else d + [s[|s| - 1]]
  }

  /** Every element is strictly smaller than every later one. */
  ghost predicate StrictlyOrdered<T>(s: seq<T>, less: (T, T) -> bool) {
    forall i, j :: 0 <= i < j < |s| ==> less(s[i], s[j])
  }

  /** Selecting rows keeps their order. */
  lemma {:induction false} FilterKeepsStrictOrder<T(!new)>(s: seq<T>, p: T -> bool, less: (T, T) -> bool)
    requires StrictlyOrdered(s, less)
    ensures StrictlyOrdered(Filter(s, p), less)
    decreases |s|
  {
    if s != [] {
      var n := |s| - 1;
      assert StrictlyOrdered(s[..n], less);
      FilterKeepsStrictOrder(s[..n], p, less);
      var r := Filter(s, p);
      var q := Filter(s[..n], p);
      FilterMembers(s[..n], p);
      forall i, j | 0 <= i < j < |r| ensures less(r[i], r[j]) {
        if j >= |q| {
          assert r[i] == q[i] && q[i] in s[..n];
          var k :| 0 <= k < n && s[..n][k] == q[i];
          assert s[k] == r[i] && r[j] == s[n];
        } else {
          assert r[i] == q[i] && r[j] == q[j];
        }
      }
    }
  }

  lemma {:induction false} NoDuplicatesCount<T>(s: seq<T>, x: T)
    requires NoDuplicates(s)
    ensures multiset(s)[x] <= 1
    decreases |s|
  {
    if s != [] {
      var n := |s| - 1;
      assert s == s[..n] + [s[n]];
      assert NoDuplicates(s[..n]);
      NoDuplicatesCount(s[..n], x);
      if s[n] == x {
        assert x !in s[..n];
      }
    }
  }

  lemma RepeatedCount<T>(t: seq<T>, i: nat, j: nat)
    requires i < j < |t| && t[i] == t[j]
    ensures multiset(t)[t[i]] >= 2
  {
    assert t == t[..j] + [t[j]] + t[j + 1..];
    assert t[..j][i] == t[i];
    assert t[i] in multiset(t[..j]);
  }

  /** A rearrangement of a sequence without duplicates has none either. */
  lemma PermutationKeepsNoDuplicates<T>(s: seq<T>, t: seq<T>)
    requires multiset(s) == multiset(t) && NoDuplicates(s)
    ensures NoDuplicates(t)
  {
    forall i, j | 0 <= i < j < |t| ensures t[i] != t[j] {
      if t[i] == t[j] {
        RepeatedCount(t, i, j);
        NoDuplicatesCount(s, t[i]);
      }
    }
  }
}
