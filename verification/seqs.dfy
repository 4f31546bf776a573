/** Sequence operations behind the list comprehensions and set conversions of
    the pipeline: an order-preserving filter and first-appearance de-duplication. */
module Seqs {

  predicate NoDuplicates<T(==,!new)>(s: seq<T>) {
    forall i, j :: 0 <= i < j < |s| ==> s[i] != s[j]
  }

  /** A list headed by `h` is free of repeats exactly when its tail is and
      does not contain `h`. */
  lemma NoDuplicatesCons<T(!new)>(h: T, t: seq<T>)
    ensures NoDuplicates([h] + t) <==> NoDuplicates(t) && h !in t
  {
    var s := [h] + t;
    assert forall i :: 0 <= i < |t| ==> s[i + 1] == t[i];
    if NoDuplicates(s) {
      forall x | x in t ensures x != h {
        var i :| 0 <= i < |t| && t[i] == x;
        assert s[0] == h && s[i + 1] == x;
      }
    }
  }

  /** `[x for x in s if p(x)]`: keeps the accepted elements and drops the
      rejected ones (`FilterCounts` adds: every occurrence of them). */
  function Filter<T(==,!new)>(s: seq<T>, p: T -> bool): (r: seq<T>)
    ensures |r| <= |s|
    ensures forall x :: x in r <==> x in s && p(x)
  {
    if |s| == 0 then []
    else
      var init := s[..|s| - 1];
      var last := s[|s| - 1];
      assert s == init + [last];
      var r := Filter(init, p);
      if p(last) then r + [last] else r
  }

  /** The filter keeps every occurrence of an accepted element and no
      occurrence of a rejected one. */
  lemma {:induction false} FilterCounts<T(!new)>(s: seq<T>, p: T -> bool)
    ensures forall x :: multiset(Filter(s, p))[x] == if p(x) then multiset(s)[x] else 0
    decreases |s|
  {
    if |s| > 0 {
      var init := s[..|s| - 1];
      var last := s[|s| - 1];
      assert s == init + [last];
      FilterCounts(init, p);
    }
  }

  /** The filter works element by element and keeps the order: filtering a
      concatenation is the concatenation of the filtered halves. */
  lemma {:induction false} FilterAppend<T(!new)>(a: seq<T>, b: seq<T>, p: T -> bool)
    ensures Filter(a + b, p) == Filter(a, p) + Filter(b, p)
    decreases |b|
  {
    if |b| > 0 {
      var init := b[..|b| - 1];
      FilterAppend(a, init, p);
      assert (a + b)[..|a + b| - 1] == a + init;
      assert (a + b)[|a + b| - 1] == b[|b| - 1];
    } else {
      assert a + b == a;
    }
  }

  /** A one-element sequence is kept exactly when its element is accepted. */
  lemma FilterSingleton<T(!new)>(x: T, p: T -> bool)
    ensures Filter([x], p) == if p(x) then [x] else []
  {
    assert [x][..0] == [];
  }

  /** Filtering three items, the middle one rejected. */
  lemma FilterDropsMiddle<T(!new)>(a: T, c: T, b: T, p: T -> bool)
    requires p(a) && !p(c) && p(b)
    ensures Filter([a, c, b], p) == [a, b]
  {
    assert [a, c, b][..2] == [a, c];
    assert [a, c][..1] == [a];
    assert [a][..0] == [];
  }

  /** No two elements of `s` share a key. */
  predicate KeysDistinct<T(!new), K(==)>(s: seq<T>, key: T -> K) {
    forall i, j :: 0 <= i < j < |s| ==> key(s[i]) != key(s[j])
  }

  /** Filtering never brings two elements with the same key together. */
  lemma {:induction false} FilterKeepsKeysDistinct<T(!new), K>(s: seq<T>, p: T -> bool, key: T -> K)
    requires KeysDistinct(s, key)
    ensures KeysDistinct(Filter(s, p), key)
    decreases |s|
  {
    if |s| > 0 {
      var n := |s| - 1;
      var init := s[..n];
      var last := s[n];
      assert KeysDistinct(init, key) by {
        forall i, j | 0 <= i < j < |init| ensures key(init[i]) != key(init[j]) {
          assert init[i] == s[i] && init[j] == s[j];
        }
      }
      FilterKeepsKeysDistinct(init, p, key);
      var ri := Filter(init, p);
      var r := Filter(s, p);
      assert s == init + [last];
      if p(last) {
        assert r == ri + [last];
        forall i, j | 0 <= i < j < |r| ensures key(r[i]) != key(r[j]) {
          assert r[i] == ri[i];
          if j == |ri| {
            assert ri[i] in init;
            var k :| 0 <= k < n && init[k] == ri[i];
            assert s[k] == r[i] && r[j] == s[n];
          } else {
            assert r[j] == ri[j];
          }
        }
      } else {
        assert r == ri;
      }
    }
  }

  /** Position of the first occurrence of `x` in `s`. */
  function FirstIndex<T(==,!new)>(s: seq<T>, x: T): (k: nat)
    requires x in s
    ensures k < |s| && s[k] == x
    ensures forall i :: 0 <= i < k ==> s[i] != x
  {
    if s[0] == x then 0 else 1 + FirstIndex(s[1..], x)
  }

  /** The distinct elements of `s`, each kept where it first appears. */
  function Dedup<T(==,!new)>(s: seq<T>): (r: seq<T>)
    ensures NoDuplicates(r)
    ensures forall x :: x in r <==> x in s
  {
    if |s| == 0 then []
    else
      var d := Dedup(s[..|s| - 1]);
      var last := s[|s| - 1];
      assert forall x :: x in s <==> x in s[..|s| - 1] || x == last;
      if last in d then d else d + [last]
  }

  /** A prefix that contains `x` already holds its first occurrence. */
  lemma FirstIndexPrefix<T(!new)>(s: seq<T>, n: nat, x: T)
    requires n <= |s| && x in s[..n]
    ensures FirstIndex(s[..n], x) == FirstIndex(s, x)
  {
    var k := FirstIndex(s[..n], x);
    var j := FirstIndex(s, x);
    assert s[..n][k] == s[k];
    assert j < n ==> s[..n][j] == s[j];
  }

  /** Dedup lists the distinct elements in order of first appearance. */
  lemma {:induction false} DedupFirstAppearanceOrder<T(!new)>(s: seq<T>)
    ensures forall i, j :: 0 <= i < j < |Dedup(s)| ==>
      FirstIndex(s, Dedup(s)[i]) < FirstIndex(s, Dedup(s)[j])
    decreases |s|
  {
    if |s| > 0 {
      var n := |s| - 1;
      var init := s[..n];
      var d := Dedup(init);
      DedupFirstAppearanceOrder(init);
      forall y | y in d
        ensures FirstIndex(s, y) == FirstIndex(init, y) < n
      {
        FirstIndexPrefix(s, n, y);
      }
      if s[n] !in d {
        assert s[n] !in init;
        assert FirstIndex(s, s[n]) == n;
      }
      forall i, j | 0 <= i < j < |Dedup(s)|
        ensures FirstIndex(s, Dedup(s)[i]) < FirstIndex(s, Dedup(s)[j])
      {
        assert Dedup(s)[i] == d[i];
        if j < |d| {
          assert Dedup(s)[j] == d[j];
        }
      }
    }
  }
}
