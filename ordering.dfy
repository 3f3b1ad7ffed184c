/** `ORDER BY column DESC` on a nullable integer column, as MySQL orders it (NULL last). */
module Ordering {
  import opened Common

  /** In descending order a row keyed `a` may come before a row keyed `b`. */
  predicate Above(a: Option<int>, b: Option<int>)
  {
    b.None? || (a.Some? && a.value >= b.value)
  }

  /** `s` is in descending order of `key`. */
  predicate SortedDesc<T>(s: seq<T>, key: T -> Option<int>)
  {
    forall i, j :: 0 <= i < j < |s| ==> Above(key(s[i]), key(s[j]))
  }

  /** Puts `x` into a descending sequence at the first place where it is above what follows. */
  function InsertDesc<T>(x: T, s: seq<T>, key: T -> Option<int>): (r: seq<T>)
    ensures multiset(r) == multiset(s) + multiset{x}
    ensures |r| == |s| + 1 && (r[0] == x || (|s| > 0 && r[0] == s[0]))
    ensures SortedDesc(s, key) ==> SortedDesc(r, key)
  {
    if |s| == 0 then [x]
    else if Above(key(x), key(s[0])) then
      if SortedDesc(s, key) then
        PrependSorted(x, s, key);
        [x] + s
      else
        [x] + s
    else
      assert s == [s[0]] + s[1..];
      var rest := InsertDesc(x, s[1..], key);
      if SortedDesc(s, key) then
        TailSorted(s, key);
        assert |s| > 1 ==> Above(key(s[0]), key(s[1]));
        PrependSorted(s[0], rest, key);
        [s[0]] + rest
      else
        [s[0]] + rest
  }

  /** A row above the first of a sorted sequence is above all of it. */
  lemma PrependSorted<T>(x: T, s: seq<T>, key: T -> Option<int>)
    requires SortedDesc(s, key)
    requires |s| == 0 || Above(key(x), key(s[0]))
    ensures SortedDesc([x] + s, key)
  {
    var r := [x] + s;
    forall i, j | 0 <= i < j < |r|
      ensures Above(key(r[i]), key(r[j]))
    {
      assert r[j] == s[j - 1];
      if i > 0 {
        assert r[i] == s[i - 1];
      } else if j > 1 {
        assert Above(key(s[0]), key(s[j - 1]));
      }
    }
  }

  /** The rest of a sorted sequence is sorted. */
  lemma TailSorted<T>(s: seq<T>, key: T -> Option<int>)
    requires |s| > 0 && SortedDesc(s, key)
    ensures SortedDesc(s[1..], key)
  {
    forall i, j | 0 <= i < j < |s[1..]|
      ensures Above(key(s[1..][i]), key(s[1..][j]))
    {
      assert s[1..][i] == s[i + 1] && s[1..][j] == s[j + 1];
    }
  }

  /** No element occurs twice. */
  ghost predicate Distinct<T>(s: seq<T>)
  {
    forall i, j :: 0 <= i < j < |s| ==> s[i] != s[j]
  }

  /** In a sequence without repeats no element occurs more than once. */
  lemma {:induction false} DistinctOnce<T>(s: seq<T>, x: T)
    requires Distinct(s)
    ensures multiset(s)[x] <= 1
  {
    if |s| > 0 {
      assert s == [s[0]] + s[1..];
      forall i, j | 0 <= i < j < |s[1..]|
        ensures s[1..][i] != s[1..][j]
      {
        assert s[1..][i] == s[i + 1] && s[1..][j] == s[j + 1];
      }
      DistinctOnce(s[1..], x);
      forall k | 0 <= k < |s[1..]|
        ensures s[1..][k] != s[0]
      {
        assert s[1..][k] == s[k + 1];
      }
      assert s[0] !in s[1..];
    }
  }

  /** A reordering of a sequence without repeats has no repeats either. */
  lemma PermutationKeepsDistinct<T>(a: seq<T>, b: seq<T>)
    requires multiset(a) == multiset(b) && Distinct(a)
    ensures Distinct(b)
  {
    forall i, j | 0 <= i < j < |b|
      ensures b[i] != b[j]
    {
      DistinctOnce(a, b[i]);
      assert b == b[..j] + b[j..];
      assert b[..j][i] == b[i];
      assert b[j..][0] == b[j];
      assert multiset(b)[b[i]] == multiset(b[..j])[b[i]] + multiset(b[j..])[b[i]];
    }
  }

  /** Insertion sort into descending order of `key`; rows with equal keys keep no particular order. */
  function SortDesc<T>(s: seq<T>, key: T -> Option<int>): (r: seq<T>)
    ensures multiset(r) == multiset(s)
    ensures SortedDesc(r, key)
  {
    if |s| == 0 then []
    else
      assert s == [s[0]] + s[1..];
      InsertDesc(s[0], SortDesc(s[1..], key), key)
  }
}
