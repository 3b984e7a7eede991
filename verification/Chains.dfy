/** Sequences that stand for the pointer chains of the block cache. */
module Chains {

  /** The null pointer; every other pointer is an index into the buffer array. */
  const NULL: int := -1

  ghost predicate NoDup<T>(s: seq<T>) {
    forall i, j :: 0 <= i < j < |s| ==> s[i] != s[j]
  }

  /** The k-th pointer of a chain, or NULL off either end. */
  function At(s: seq<int>, k: int): int {
    if 0 <= k < |s| then s[k] else NULL
  }

  /** The chain without its k-th element. */
  function RemoveAt<T>(s: seq<T>, k: nat): (r: seq<T>)
    requires k < |s|
    ensures |r| == |s| - 1
    ensures forall j {:trigger r[j]} :: 0 <= j < k ==> r[j] == s[j]
    ensures forall j {:trigger r[j]} :: k <= j < |r| ==> r[j] == s[j + 1]
  {
    seq(|s| - 1, j requires 0 <= j < |s| - 1 => if j < k then s[j] else s[j + 1])
  }

  lemma RemoveAtSlices<T>(s: seq<T>, k: nat)
    requires k < |s|
    ensures RemoveAt(s, k) == s[..k] + s[k + 1..]
  {
  }

  /** The chain without x. */
  function Without<T(==)>(s: seq<T>, x: T): seq<T> {
    if s == [] then [] else if s[0] == x then Without(s[1..], x) else [s[0]] + Without(s[1..], x)
  }

  lemma {:induction false} WithoutAbsent<T>(s: seq<T>, x: T)
    requires x !in s
    ensures Without(s, x) == s
  {
    if s != [] {
      WithoutAbsent(s[1..], x);
    }
  }

  lemma {:induction false} WithoutAppend<T>(s: seq<T>, t: seq<T>, x: T)
    ensures Without(s + t, x) == Without(s, x) + Without(t, x)
  {
    if s == [] {
      assert s + t == t;
    } else {
      assert (s + t)[1..] == s[1..] + t;
      WithoutAppend(s[1..], t, x);
    }
  }

  lemma {:induction false} WithoutMembers<T>(s: seq<T>, x: T)
    ensures forall y :: y in Without(s, x) <==> y in s && y != x
    ensures NoDup(s) ==> NoDup(Without(s, x))
    ensures |Without(s, x)| <= |s|
  {
    if s != [] {
      WithoutMembers(s[1..], x);
      var rest := Without(s[1..], x);
      if NoDup(s) {
        assert forall i, j :: 0 <= i < j < |s[1..]| ==> s[1..][i] == s[i + 1] && s[1..][j] == s[j + 1];
        assert NoDup(rest);
        assert s[0] !in rest;
      }
    }
  }

  /** Taking out an element that occurs once is taking out its position. */
  lemma {:induction false} WithoutOnce<T>(s: seq<T>, k: nat)
    requires k < |s| && forall j :: 0 <= j < |s| && j != k ==> s[j] != s[k]
    ensures Without(s, s[k]) == RemoveAt(s, k)
  {
    assert s == s[..k] + ([s[k]] + s[k + 1..]);
    WithoutAppend(s[..k], [s[k]] + s[k + 1..], s[k]);
    WithoutAbsent(s[..k], s[k]);
    WithoutAbsent(s[k + 1..], s[k]);
    assert ([s[k]] + s[k + 1..])[1..] == s[k + 1..];
  }

  lemma {:induction false} WithoutIsRemoveAt<T>(s: seq<T>, k: nat)
    requires NoDup(s) && k < |s|
    ensures Without(s, s[k]) == RemoveAt(s, k)
    ensures NoDup(RemoveAt(s, k))
    ensures forall y :: y in RemoveAt(s, k) <==> y in s && y != s[k]
  {
    WithoutOnce(s, k);
    WithoutMembers(s, s[k]);
  }

  /** A sequence without repetitions is known by its multiplicities. */
  lemma {:induction false} NoDupCounts<T>(s: seq<T>)
    requires NoDup(s)
    ensures forall x :: multiset(s)[x] <= 1
  {
    if s != [] {
      var n := |s| - 1;
      assert s == s[..n] + [s[n]];
      NoDupCounts(s[..n]);
      assert s[n] !in s[..n];
    }
  }

  lemma CountsNoDup<T>(s: seq<T>)
    requires forall x :: multiset(s)[x] <= 1
    ensures NoDup(s)
  {
    forall i, j | 0 <= i < j < |s|
      ensures s[i] != s[j]
    {
      assert s == s[..j] + s[j..];
      assert multiset(s) == multiset(s[..j]) + multiset(s[j..]);
      assert s[i] in s[..j] && s[j] in s[j..];
      assert s[i] == s[j] ==> multiset(s)[s[i]] >= 2;
    }
  }

  lemma PermutedNoDup<T>(s: seq<T>, s': seq<T>)
    requires NoDup(s) && multiset(s) == multiset(s')
    ensures NoDup(s') && forall x :: x in s' <==> x in s
  {
    NoDupCounts(s);
    CountsNoDup(s');
    forall x
      ensures x in s' <==> x in s
    {
      assert x in s' <==> x in multiset(s');
    }
  }
}
