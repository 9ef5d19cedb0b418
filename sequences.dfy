/** Facts about sequences: sorting and summing integers (the hand evaluator's streams)
    and counting occurrences. */
module Sequences {

  predicate Sorted(s: seq<int>)
  {
    forall i, j :: 0 <= i < j < |s| ==> s[i] <= s[j]
  }

  /** Inserts x into a sorted sequence. */
  function Insert(x: int, s: seq<int>): (r: seq<int>)
    requires Sorted(s)
    ensures Sorted(r) && multiset(r) == multiset(s) + multiset{x}
    decreases |s|
  {
    if s == [] || x <= s[0] then
      [x] + s
    else
      var rest := Insert(x, s[1..]);
      assert s == [s[0]] + s[1..];
      FirstIsLeast(s);
      AtLeast(s[0], rest, multiset(s[1..]) + multiset{x});
      PrependSorted(s[0], rest);
      [s[0]] + rest
  }

  lemma PrependSorted(y: int, r: seq<int>)
    requires Sorted(r) && forall i :: 0 <= i < |r| ==> y <= r[i]
    ensures Sorted([y] + r)
  {
  }

  /** The first element of a sorted sequence bounds all the others. */
  lemma FirstIsLeast(s: seq<int>)
    requires Sorted(s) && s != []
    ensures forall y :: y in multiset(s[1..]) ==> s[0] <= y
  {
    forall y | y in multiset(s[1..]) ensures s[0] <= y {
      assert y in s[1..];
    }
  }

  /** A sequence holding the elements of a multiset bounded below is bounded below. */
  lemma AtLeast(lo: int, r: seq<int>, m: multiset<int>)
    requires multiset(r) == m && forall y :: y in m ==> lo <= y
    ensures forall i :: 0 <= i < |r| ==> lo <= r[i]
  {
    forall i | 0 <= i < |r| ensures lo <= r[i] {
      assert r[i] in multiset(r);
    }
  }

  /** Ascending order of a sequence of integers (the stream's `sorted()`). */
  function Sort(s: seq<int>): (r: seq<int>)
    ensures Sorted(r) && multiset(r) == multiset(s)
  {
    if s == [] then []
    else
      assert s == [s[0]] + s[1..];
      Insert(s[0], Sort(s[1..]))
  }

  /** A sorted sequence is determined by its multiset of elements. */
  lemma {:induction false} SortedUnique(a: seq<int>, b: seq<int>)
    requires Sorted(a) && Sorted(b) && multiset(a) == multiset(b)
    ensures a == b
  {
    if a != [] {
      assert |b| == |multiset(b)| == |multiset(a)| == |a|;
      assert a[0] <= b[0] by {
        assert b[0] in multiset(a);
        assert b[0] in a;
      }
      assert b[0] <= a[0] by {
        assert a[0] in multiset(b);
        assert a[0] in b;
      }
      DropFirst(a);
      DropFirst(b);
      SortedUnique(a[1..], b[1..]);
    }
  }

  lemma DropFirst(s: seq<int>)
    requires s != []
    ensures multiset(s[1..]) == multiset(s) - multiset{s[0]}
  {
    assert s == [s[0]] + s[1..];
  }

  /** Sum of the elements (the stream's `sum()`). */
  function Sum(s: seq<int>): int
  {
    if s == [] then 0 else s[0] + Sum(s[1..])
  }

  /** The sum depends only on the multiset of elements. */
  lemma {:induction false} SumPermutation(a: seq<int>, b: seq<int>)
    requires multiset(a) == multiset(b)
    ensures Sum(a) == Sum(b)
    decreases |a|
  {
    if a != [] {
      var j :| 0 <= j < |b| && b[j] == a[0] by {
        assert a[0] in multiset(b);
      }
      var rest := b[..j] + b[j + 1..];
      RemoveAt(b, j);
      DropFirst(a);
      SumPermutation(a[1..], rest);
      SumRemove(b, j);
    }
  }

  /** Taking the element at j out of a sequence takes it out of its multiset. */
  lemma RemoveAt<T>(b: seq<T>, j: nat)
    requires j < |b|
    ensures multiset(b[..j] + b[j + 1..]) == multiset(b) - multiset{b[j]}
  {
    assert b == b[..j] + [b[j]] + b[j + 1..];
  }

  /** Taking one element out takes it out of the sum. */
  lemma {:induction false} SumRemove(b: seq<int>, j: nat)
    requires j < |b|
    ensures Sum(b) == Sum(b[..j] + b[j + 1..]) + b[j]
  {
    if j == 0 {
      assert b[..0] + b[1..] == b[1..];
    } else {
      var rest := b[..j] + b[j + 1..];
      assert rest[0] == b[0];
      assert rest[1..] == b[1..][..j - 1] + b[1..][j..];
      SumRemove(b[1..], j - 1);
    }
  }

  /** How often v occurs, bounded by the length. */
  lemma {:induction false} OccurrencesBound<T>(s: seq<T>, v: T)
    ensures multiset(s)[v] <= |s|
  {
    if s != [] {
      assert s == [s[0]] + s[1..];
      OccurrencesBound(s[1..], v);
    }
  }

  /** Two different elements cannot together occur more often than the length. */
  lemma {:induction false} TwoOccurrencesBound<T>(s: seq<T>, v: T, w: T)
    requires v != w
    ensures multiset(s)[v] + multiset(s)[w] <= |s|
  {
    if s != [] {
      assert s == [s[0]] + s[1..];
      TwoOccurrencesBound(s[1..], v, w);
    }
  }

  /** Three different elements cannot together occur more often than the length. */
  lemma {:induction false} ThreeOccurrencesBound<T>(s: seq<T>, u: T, v: T, w: T)
    requires u != v && v != w && u != w
    ensures multiset(s)[u] + multiset(s)[v] + multiset(s)[w] <= |s|
  {
    if s != [] {
      assert s == [s[0]] + s[1..];
      ThreeOccurrencesBound(s[1..], u, v, w);
    }
  }

  /** An element that occurs at least twice sits at two different positions. */
  lemma {:induction false} RepeatedAt<T>(s: seq<T>, v: T) returns (i: nat, j: nat)
    requires multiset(s)[v] >= 2
    ensures i < j < |s| && s[i] == v && s[j] == v
  {
    assert s == [s[0]] + s[1..];
    if s[0] == v {
      assert v in multiset(s[1..]);
      var k :| 0 <= k < |s[1..]| && s[1..][k] == v;
      i, j := 0, k + 1;
    } else {
      var i', j' := RepeatedAt(s[1..], v);
      i, j := i' + 1, j' + 1;
    }
  }

  /** In a strictly increasing sequence nothing occurs twice. */
  lemma {:induction false} IncreasingOccursOnce(s: seq<int>, v: int)
    requires forall i :: 1 <= i < |s| ==> s[i - 1] < s[i]
    ensures multiset(s)[v] <= 1
  {
    if multiset(s)[v] >= 2 {
      var i, j := RepeatedAt(s, v);
      IncreasingBetween(s, i, j);
      assert false;
    }
  }

  lemma {:induction false} IncreasingBetween(s: seq<int>, i: nat, j: nat)
    requires forall k :: 1 <= k < |s| ==> s[k - 1] < s[k]
    requires i < j < |s|
    ensures s[i] < s[j]
    decreases j - i
  {
    if i + 1 < j {
      IncreasingBetween(s, i, j - 1);
    }
  }

  /** No element occurs twice. */
  predicate Distinct<T(==)>(s: seq<T>)
  {
    forall i, j :: 0 <= i < j < |s| ==> s[i] != s[j]
  }

  /** In a sequence without repeats every element occurs at most once. */
  lemma DistinctOccursOnce<T>(s: seq<T>, v: T)
    requires Distinct(s)
    ensures multiset(s)[v] <= 1
  {
    if multiset(s)[v] >= 2 {
      var i, j := RepeatedAt(s, v);
    }
  }

  /** An element found at two positions occurs at least twice. */
  lemma TwoPositions<T>(s: seq<T>, i: nat, j: nat)
    requires i < j < |s| && s[i] == s[j]
    ensures multiset(s)[s[i]] >= 2
  {
    assert s == s[..j] + [s[j]] + s[j + 1..];
    assert s[i] in s[..j];
  }
}
