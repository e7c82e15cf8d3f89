/** Order and membership facts about sequences that the task operations rely on. */
module Seqs {

  /** `a` is obtained from `b` by deleting zero or more elements: order is kept. */
  predicate IsSubsequence<T(==)>(a: seq<T>, b: seq<T>)
    decreases |b|
  {
    || |a| == 0
    || (&& |b| > 0
        && ((a[0] == b[0] && IsSubsequence(a[1..], b[1..])) || IsSubsequence(a, b[1..])))
  }

  lemma {:induction false} SubsequenceRefl<T>(s: seq<T>)
    ensures IsSubsequence(s, s)
    decreases |s|
  {
    if |s| > 0 {
      SubsequenceRefl(s[1..]);
    }
  }

  /** No element occurs twice. */
  predicate NoDuplicates<T(==)>(s: seq<T>)
  {
    forall i, j :: 0 <= i < j < |s| ==> s[i] != s[j]
  }

  /** Python's `list.remove(x)` on a list that may not hold `x`: the first
      occurrence is deleted, a list without `x` is returned as it is. */
  function RemoveFirst<T(==)>(s: seq<T>, x: T): (r: seq<T>)
    ensures x !in s ==> r == s
    ensures x in s ==> |r| == |s| - 1
  {
    if |s| == 0 then s
    else if s[0] == x then s[1..]
    else
      assert s == [s[0]] + s[1..];
      [s[0]] + RemoveFirst(s[1..], x)
  }

  /** `list.index(x)`: the position of the first occurrence of `x`. */
  function FirstIndex<T(==)>(s: seq<T>, x: T): (k: nat)
    requires x in s
    ensures k < |s| && s[k] == x && x !in s[..k]
  {
    if s[0] == x then 0
    else
      var k := FirstIndex(s[1..], x);
      assert s[..k + 1] == [s[0]] + s[1..][..k];
      k + 1
  }

  /** `r` is `s` with its first `x` deleted, or `s` itself when `x` is absent. */
  predicate IsFirstRemoval<T(==)>(s: seq<T>, r: seq<T>, x: T)
  {
    if x in s then
      exists k :: 0 <= k < |s| && s[k] == x && x !in s[..k] && r == s[..k] + s[k + 1..]
    else r == s
  }

  /** `RemoveFirst` deletes one occurrence of `x` and keeps the order of the rest. */
  lemma {:induction false} RemoveFirstDeletesOne<T>(s: seq<T>, x: T)
    ensures multiset(RemoveFirst(s, x)) == multiset(s) - multiset{x}
    ensures IsSubsequence(RemoveFirst(s, x), s)
    decreases |s|
  {
    if |s| > 0 {
      assert s == [s[0]] + s[1..];
      if s[0] == x {
        SubsequenceRefl(s[1..]);
      } else {
        var rest := RemoveFirst(s[1..], x);
        RemoveFirstDeletesOne(s[1..], x);
        assert ([s[0]] + rest)[1..] == rest;
      }
    }
  }

  /** The element `RemoveFirst` deletes is the first occurrence, at index `k`. */
  lemma {:induction false} RemoveFirstAt<T>(s: seq<T>, x: T, k: nat)
    requires k < |s| && s[k] == x && x !in s[..k]
    ensures RemoveFirst(s, x) == s[..k] + s[k+1..]
    decreases k
  {
    if k == 0 {
      assert s[..0] + s[1..] == s[1..];
    } else {
      var t := s[1..];
      assert s[..k] == [s[0]] + t[..k-1];
      RemoveFirstAt(t, x, k - 1);
      assert s[k+1..] == t[k..];
      assert ([s[0]] + t[..k-1]) + t[k..] == [s[0]] + (t[..k-1] + t[k..]);
    }
  }

  /** Without duplicates, removing the first occurrence removes the only one. */
  lemma {:induction false} RemoveFirstNoDuplicates<T>(s: seq<T>, x: T)
    ensures NoDuplicates(s) ==> x !in RemoveFirst(s, x)
    decreases |s|
  {
    if |s| > 0 && s[0] != x && NoDuplicates(s) {
      assert NoDuplicates(s[1..]);
      RemoveFirstNoDuplicates(s[1..], x);
    }
  }

  /** Appending a fresh element and removing it again gives back the list. */
  lemma {:induction false} RemoveAppended<T>(s: seq<T>, x: T)
    requires x !in s
    ensures RemoveFirst(s + [x], x) == s
    decreases |s|
  {
    if |s| == 0 {
      assert s + [x] == [x];
      assert [x][1..] == [];
    } else {
      var tail := s[1..] + [x];
      assert s[0] != x;
      assert (s + [x])[0] == s[0];
      assert (s + [x])[1..] == tail;
      assert x !in s[1..];
      RemoveAppended(s[1..], x);
      assert RemoveFirst(s + [x], x) == [s[0]] + RemoveFirst(tail, x);
      assert [s[0]] + s[1..] == s;
    }
  }

  /** `RemoveFirst` is `list.remove` under the membership guard. */
  lemma RemoveFirstIsFirstRemoval<T>(s: seq<T>, x: T)
    ensures IsFirstRemoval(s, RemoveFirst(s, x), x)
  {
    if x in s {
      var k := FirstIndex(s, x);
      RemoveFirstAt(s, x, k);
    }
  }
}
