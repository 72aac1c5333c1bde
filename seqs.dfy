/**
 The array operations the workout store is written with: `filter`, `findIndex`,
 order-preserving subsequences and uniqueness of a key.
 */
module Seqs {

  /** `Array.prototype.filter`: the elements satisfying `p`, in their original order. */
  function Filter<T>(s: seq<T>, p: T -> bool): (r: seq<T>)
    ensures |r| <= |s|
  {
    if s == [] then [] else (if p(s[0]) then [s[0]] else []) + Filter(s[1..], p)
  }

  /** The filter keeps exactly the elements that pass the test. */
  lemma {:induction false} FilterMembers<T>(s: seq<T>, p: T -> bool)
    ensures forall k :: 0 <= k < |Filter(s, p)| ==> Filter(s, p)[k] in s && p(Filter(s, p)[k])
    ensures forall k :: 0 <= k < |s| && p(s[k]) ==> s[k] in Filter(s, p)
  {
    if s != [] {
      FilterMembers(s[1..], p);
      assert s == [s[0]] + s[1..];
      FilterCons(s[0], s[1..], p);
      var r := Filter(s, p);
      forall k | 0 <= k < |r| ensures r[k] in s && p(r[k]) {
        if p(s[0]) && k > 0 {
          assert r[k] == Filter(s[1..], p)[k - 1];
        }
      }
      forall k | 0 < k < |s| && p(s[k]) ensures s[k] in r {
        assert s[k] == s[1..][k - 1];
      }
    }
  }

  /** The filter keeps every element that passes the test as often as it occurs,
      and no other element. */
  lemma {:induction false} FilterCounts<T>(s: seq<T>, p: T -> bool)
    ensures forall x :: multiset(Filter(s, p))[x] == if p(x) then multiset(s)[x] else 0
  {
    if s != [] {
      FilterCounts(s[1..], p);
      FilterUnfold(s, p);
      assert s == [s[0]] + s[1..];
    }
  }

  /** Filtering a sequence with a known head. */
  lemma FilterCons<T>(x: T, s: seq<T>, p: T -> bool)
    ensures Filter([x] + s, p) == (if p(x) then [x] else []) + Filter(s, p)
  {
    assert ([x] + s)[0] == x && ([x] + s)[1..] == s;
  }

  /** `Array.prototype.findIndex`: the first index whose element satisfies `p`, or -1. */
  function IndexWhere<T>(s: seq<T>, p: T -> bool): (r: int)
    ensures -1 <= r < |s|
    ensures r == -1 <==> forall k :: 0 <= k < |s| ==> !p(s[k])
    ensures 0 <= r ==> p(s[r]) && forall k :: 0 <= k < r ==> !p(s[k])
  {
    if s == [] then -1
    else if p(s[0]) then 0
    else
      var r := IndexWhere(s[1..], p);
      if r == -1 then -1 else r + 1
  }

  /** `a` can be obtained from `b` by deleting elements: `a` keeps `b`'s relative order. */
  predicate IsSubsequence<T(==)>(a: seq<T>, b: seq<T>)
    decreases |b|
  {
    a == [] ||
    (b != [] && ((a[0] == b[0] && IsSubsequence(a[1..], b[1..])) || IsSubsequence(a, b[1..])))
  }

  /** No two elements of `s` share a key. */
  predicate UniqueBy<T, K(==)>(s: seq<T>, key: T -> K) {
    forall i, j :: 0 <= i < j < |s| ==> key(s[i]) != key(s[j])
  }

  lemma {:induction false} FilterIsSubsequence<T>(s: seq<T>, p: T -> bool)
    ensures IsSubsequence(Filter(s, p), s)
  {
    if s != [] {
      FilterIsSubsequence(s[1..], p);
      if p(s[0]) {
        var r := Filter(s, p);
        assert r[0] == s[0] && r[1..] == Filter(s[1..], p);
        assert IsSubsequence(r[1..], s[1..]);
      } else {
        assert Filter(s, p) == Filter(s[1..], p);
      }
    }
  }

  lemma {:induction false} SubsequenceKeepsUnique<T, K>(a: seq<T>, b: seq<T>, key: T -> K)
    requires IsSubsequence(a, b) && UniqueBy(b, key)
    ensures UniqueBy(a, key)
    ensures forall k :: 0 <= k < |a| ==> a[k] in b
    decreases |b|
  {
    if a != [] {
      assert UniqueBy(b[1..], key) by {
        forall i, j | 0 <= i < j < |b[1..]| ensures key(b[1..][i]) != key(b[1..][j]) {
          assert b[1..][i] == b[i + 1] && b[1..][j] == b[j + 1];
        }
      }
      if a[0] == b[0] && IsSubsequence(a[1..], b[1..]) {
        SubsequenceKeepsUnique(a[1..], b[1..], key);
        forall i, j | 0 <= i < j < |a| ensures key(a[i]) != key(a[j]) {
          assert a[j] == a[1..][j - 1];
          if i > 0 {
            assert a[i] == a[1..][i - 1];
          } else {
            var k :| 0 <= k < |b[1..]| && b[1..][k] == a[j];
            assert b[k + 1] == a[j];
          }
        }
        forall k | 0 < k < |a| ensures a[k] in b {
          assert a[k] == a[1..][k - 1];
        }
      } else {
        SubsequenceKeepsUnique(a, b[1..], key);
      }
    }
  }

  /** Searching a filtered sequence finds the first element `s[j]` that passes both tests. */
  lemma {:induction false} FindInFilter<T>(s: seq<T>, p: T -> bool, q: T -> bool) returns (j: int)
    ensures -1 <= j < |s|
    ensures j == -1 <==> IndexWhere(Filter(s, p), q) == -1
    ensures j == -1 ==> forall i :: 0 <= i < |s| ==> !(p(s[i]) && q(s[i]))
    ensures 0 <= j ==> p(s[j]) && q(s[j]) && Filter(s, p)[IndexWhere(Filter(s, p), q)] == s[j]
    ensures 0 <= j ==> forall i :: 0 <= i < j ==> !(p(s[i]) && q(s[i]))
  {
    if s == [] {
      return -1;
    }
    if p(s[0]) && q(s[0]) {
      assert Filter(s, p)[0] == s[0];
      return 0;
    }
    var j' := FindInFilter(s[1..], p, q);
    FindInFilterStep(s, p, q);
    j := if j' == -1 then -1 else j' + 1;
    forall i | 1 <= i < |s| ensures s[i] == s[1..][i - 1] { }
  }

  /** When the head of `s` does not pass both tests, the search in `Filter(s, p)`
      ends on the same element as the search in `Filter(s[1..], p)`. */
  lemma FindInFilterStep<T>(s: seq<T>, p: T -> bool, q: T -> bool)
    requires s != [] && !(p(s[0]) && q(s[0]))
    ensures var f, f' := Filter(s, p), Filter(s[1..], p);
            var k, k' := IndexWhere(f, q), IndexWhere(f', q);
            (k == -1 <==> k' == -1) && (0 <= k' ==> f[k] == f'[k'])
  {
    var f, f' := Filter(s, p), Filter(s[1..], p);
    FilterUnfold(s, p);
    if p(s[0]) {
      assert f == [s[0]] + f';
      SearchPastHead(s[0], f', q);
      assert IndexWhere(f, q) == IndexWhere([s[0]] + f', q);
    } else {
      assert f == f';
    }
  }

  /** One step of the filter's recursion. */
  lemma FilterUnfold<T>(s: seq<T>, p: T -> bool)
    requires s != []
    ensures Filter(s, p) == (if p(s[0]) then [s[0]] else []) + Filter(s[1..], p)
  {
  }

  /** A search that fails on the head ends on the same element as the search in the tail. */
  lemma SearchPastHead<T>(x: T, s: seq<T>, q: T -> bool)
    requires !q(x)
    ensures var k, k' := IndexWhere([x] + s, q), IndexWhere(s, q);
            (k == -1 <==> k' == -1) && (0 <= k' ==> ([x] + s)[k] == s[k'])
  {
    IndexWhereCons(x, s, q);
  }

  /** Searching a sequence with a known head. */
  lemma IndexWhereCons<T>(x: T, s: seq<T>, q: T -> bool)
    ensures var k := IndexWhere(s, q);
            IndexWhere([x] + s, q) == (if q(x) then 0 else if k == -1 then -1 else k + 1)
  {
    assert ([x] + s)[0] == x && ([x] + s)[1..] == s;
  }
}
