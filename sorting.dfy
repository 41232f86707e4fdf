/**
 * Python's `list.sort(key=..., reverse=True)` and `sorted(...)`: a stable sort
 * by a real-valued key, modelled as an insertion sort on sequences. A stable
 * ascending sort by `k` is the stable descending sort by `-k`.
 */
module Sorting {

  ghost predicate SortedDesc<T>(s: seq<T>, key: T -> real)
  {
    forall i, j :: 0 <= i < j < |s| ==> key(s[i]) >= key(s[j])
  }

  /** Inserts `x` in front of the first element whose key is not larger. */
  function Insert<T>(x: T, s: seq<T>, key: T -> real): seq<T>
  {
    if s == [] then [x]
    else if key(s[0]) <= key(x) then [x] + s
    else [s[0]] + Insert(x, s[1..], key)
  }

  lemma {:induction false} InsertPermutes<T>(x: T, s: seq<T>, key: T -> real)
    ensures multiset(Insert(x, s, key)) == multiset{x} + multiset(s)
  {
    if s != [] && key(s[0]) > key(x) {
      InsertPermutes(x, s[1..], key);
      assert s == [s[0]] + s[1..];
    }
  }

  lemma {:induction false} InsertMembers<T>(x: T, s: seq<T>, key: T -> real)
    ensures forall y :: y in Insert(x, s, key) ==> y == x || y in s
  {
    if s != [] && key(s[0]) > key(x) {
      InsertMembers(x, s[1..], key);
    }
  }

  lemma {:induction false} InsertSorted<T>(x: T, s: seq<T>, key: T -> real)
    requires SortedDesc(s, key)
    ensures SortedDesc(Insert(x, s, key), key)
  {
    if s != [] && key(s[0]) > key(x) {
      var t := Insert(x, s[1..], key);
      InsertSorted(x, s[1..], key);
      InsertMembers(x, s[1..], key);
      assert forall i :: 0 <= i < |t| ==> t[i] in t;
      assert forall y :: y in s[1..] ==> key(s[0]) >= key(y);
      assert forall i :: 0 <= i < |t| ==> key(s[0]) >= key(t[i]);
      assert forall i :: 0 < i < |t| + 1 ==> ([s[0]] + t)[i] == t[i - 1];
    }
  }

  /** The elements of `s` reordered by non-increasing key; elements with
      equal keys keep their relative order. */
  function SortDesc<T>(s: seq<T>, key: T -> real): (r: seq<T>)
    ensures multiset(r) == multiset(s)
    ensures |r| == |s|
    ensures SortedDesc(r, key)
  {
    if s == [] then []
    else
      var t := SortDesc(s[1..], key);
      InsertPermutes(s[0], t, key);
      InsertSorted(s[0], t, key);
      assert s == [s[0]] + s[1..];
      Insert(s[0], t, key)
  }

  lemma SortDescMembers<T>(s: seq<T>, key: T -> real)
    ensures forall x :: x in SortDesc(s, key) <==> x in s
  {
    var r := SortDesc(s, key);
    assert forall x :: x in r <==> x in multiset(r);
    assert forall x :: x in s <==> x in multiset(s);
  }

  /** No two elements of `s` share an `f` value. */
  predicate DistinctBy<T, K(==)>(s: seq<T>, f: T -> K)
  {
    forall i, j :: 0 <= i < j < |s| ==> f(s[i]) != f(s[j])
  }

  lemma {:induction false} InsertDistinct<T, K>(x: T, s: seq<T>, key: T -> real, f: T -> K)
    requires DistinctBy(s, f)
    requires forall y :: y in s ==> f(y) != f(x)
    ensures DistinctBy(Insert(x, s, key), f)
  {
    if s != [] && key(s[0]) > key(x) {
      assert DistinctBy(s[1..], f);
      InsertDistinct(x, s[1..], key, f);
      InsertMembers(x, s[1..], key);
      var t := Insert(x, s[1..], key);
      assert forall y :: y in t ==> f(y) != f(s[0]);
      assert forall i :: 1 <= i < |[s[0]] + t| ==> ([s[0]] + t)[i] == t[i - 1];
    }
  }

  /** Sorting keeps a sequence free of repeated `f` values. */
  lemma {:induction false} SortDescDistinct<T, K>(s: seq<T>, key: T -> real, f: T -> K)
    requires DistinctBy(s, f)
    ensures DistinctBy(SortDesc(s, key), f)
  {
    if s != [] {
      assert DistinctBy(s[1..], f);
      SortDescDistinct(s[1..], key, f);
      forall y | y in SortDesc(s[1..], key) ensures f(y) != f(s[0]) {
        assert y in multiset(SortDesc(s[1..], key));
        assert y in multiset(s[1..]);
        var i :| 0 <= i < |s[1..]| && s[1..][i] == y;
        assert s[i + 1] == y;
      }
      InsertDistinct(s[0], SortDesc(s[1..], key), key, f);
    }
  }

  /** The elements of `s` whose key is `k`, in order. */
  function KeyFilter<T>(s: seq<T>, key: T -> real, k: real): seq<T>
  {
    if s == [] then []
    else (if key(s[0]) == k then [s[0]] else []) + KeyFilter(s[1..], key, k)
  }

  lemma {:induction false} InsertKeyFilter<T>(x: T, s: seq<T>, key: T -> real, k: real)
    ensures KeyFilter(Insert(x, s, key), key, k)
         == (if key(x) == k then [x] else []) + KeyFilter(s, key, k)
  {
    if s == [] {
      assert Insert(x, s, key) == [x];
      assert [x][1..] == [];
    } else if key(s[0]) <= key(x) {
      var r := [x] + s;
      assert Insert(x, s, key) == r;
      assert r[0] == x && r[1..] == s;
    } else {
      var t := Insert(x, s[1..], key);
      var r := [s[0]] + t;
      assert Insert(x, s, key) == r;
      assert r[0] == s[0] && r[1..] == t;
      InsertKeyFilter(x, s[1..], key, k);
      var rest := KeyFilter(s[1..], key, k);
      assert KeyFilter(s, key, k) == (if key(s[0]) == k then [s[0]] else []) + rest;
      if key(x) == k {
        assert key(s[0]) != k;
        assert KeyFilter(r, key, k) == KeyFilter(t, key, k) == [x] + rest;
      } else {
        assert KeyFilter(t, key, k) == rest;
      }
    }
  }

  /** Stability: for every key value, the elements with that key appear in
      the sorted sequence in the same order as in the input. */
  lemma {:induction false} SortDescStable<T>(s: seq<T>, key: T -> real, k: real)
    ensures KeyFilter(SortDesc(s, key), key, k) == KeyFilter(s, key, k)
  {
    if s != [] {
      SortDescStable(s[1..], key, k);
      InsertKeyFilter(s[0], SortDesc(s[1..], key), key, k);
    }
  }

  /** `t` is `s` with some elements left out, the others in their order. */
  predicate Subsequence<T(==)>(t: seq<T>, s: seq<T>)
    decreases |s|
  {
    if s == [] then t == []
    else
      || (t != [] && t[|t| - 1] == s[|s| - 1] && Subsequence(t[..|t| - 1], s[..|s| - 1]))
      || Subsequence(t, s[..|s| - 1])
  }

  lemma {:induction false} SubsequenceMembers<T>(t: seq<T>, s: seq<T>)
    requires Subsequence(t, s)
    ensures forall x :: x in t ==> x in s
    decreases |s|
  {
    if s != [] {
      var s' := s[..|s| - 1];
      if t != [] && t[|t| - 1] == s[|s| - 1] && Subsequence(t[..|t| - 1], s') {
        SubsequenceMembers(t[..|t| - 1], s');
        assert t == t[..|t| - 1] + [t[|t| - 1]];
      } else {
        SubsequenceMembers(t, s');
      }
      assert s == s' + [s[|s| - 1]];
    }
  }

  lemma SubsequenceRefl<T>(s: seq<T>)
    ensures Subsequence(s, s)
    decreases |s|
  {
    if s != [] {
      SubsequenceRefl(s[..|s| - 1]);
    }
  }
}
