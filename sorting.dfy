/** Sorting as the editor does it with `Array.prototype.sort`: a stable sort in
    ascending order of a string key compared by UTF-16 code units. A stable
    sort under a consistent comparison has exactly one possible result, so
    the insertion sort here fixes what the editor's sort produces, whatever
    algorithm the JavaScript engine uses. */
module Sorting {
  import opened Text

  /** No element's key is greater than the key of any element after it. */
  predicate SortedBy<T>(s: seq<T>, key: T -> seq<int>) {
    forall i, j :: 0 <= i < j < |s| ==> !LexLess(key(s[j]), key(s[i]))
  }

  /** Places `x` after the trailing elements whose key is not greater than its own,
      and before the ones whose key is greater. */
  function Insert<T>(s: seq<T>, x: T, key: T -> seq<int>): (r: seq<T>)
    ensures |r| == |s| + 1
  {
    if s == [] || !LexLess(key(x), key(s[|s| - 1])) then s + [x]
    else Insert(s[..|s| - 1], x, key) + [s[|s| - 1]]
  }

  lemma {:induction false} InsertPermutation<T>(s: seq<T>, x: T, key: T -> seq<int>)
    ensures multiset(Insert(s, x, key)) == multiset(s) + multiset{x}
    decreases |s|
  {
    if s != [] && LexLess(key(x), key(s[|s| - 1])) {
      InsertPermutation(s[..|s| - 1], x, key);
      assert s == s[..|s| - 1] + [s[|s| - 1]];
    }
  }

  /** Inserts the elements one after another, in their original order. */
  function InsertionSort<T>(s: seq<T>, key: T -> seq<int>): seq<T> {
    if s == [] then [] else Insert(InsertionSort(s[..|s| - 1], key), s[|s| - 1], key)
  }

  /** All keys are at most `b`. */
  predicate AllAtMost<T>(s: seq<T>, b: seq<int>, key: T -> seq<int>) {
    forall i :: 0 <= i < |s| ==> !LexLess(b, key(s[i]))
  }

  lemma {:induction false} InsertAtMost<T>(s: seq<T>, x: T, b: seq<int>, key: T -> seq<int>)
    requires AllAtMost(s, b, key) && !LexLess(b, key(x))
    ensures AllAtMost(Insert(s, x, key), b, key)
    decreases |s|
  {
    if s != [] && LexLess(key(x), key(s[|s| - 1])) {
      InsertAtMost(s[..|s| - 1], x, b, key);
    }
  }

  lemma {:induction false} InsertSorted<T>(s: seq<T>, x: T, key: T -> seq<int>)
    requires SortedBy(s, key)
    ensures SortedBy(Insert(s, x, key), key)
    decreases |s|
  {
    if s == [] {
    } else if !LexLess(key(x), key(s[|s| - 1])) {
      var last := key(s[|s| - 1]);
      forall i | 0 <= i < |s| ensures !LexLess(key(x), key(s[i])) {
        if i < |s| - 1 {
          LexLeqTransitive(key(s[i]), last, key(x));
        }
      }
    } else {
      var init := s[..|s| - 1];
      var last := s[|s| - 1];
      InsertSorted(init, x, key);
      LexLessTotal(key(x), key(last));
      LexLessIrreflexive(key(last));
      assert AllAtMost(init, key(last), key);
      InsertAtMost(init, x, key(last), key);
    }
  }

  /** The result of the sort is in ascending key order. */
  lemma {:induction false} InsertionSortSorted<T>(s: seq<T>, key: T -> seq<int>)
    ensures SortedBy(InsertionSort(s, key), key)
    decreases |s|
  {
    if s != [] {
      InsertionSortSorted(s[..|s| - 1], key);
      InsertSorted(InsertionSort(s[..|s| - 1], key), s[|s| - 1], key);
    }
  }

  /** The result of the sort is a permutation of its input. */
  lemma {:induction false} InsertionSortPermutation<T>(s: seq<T>, key: T -> seq<int>)
    ensures multiset(InsertionSort(s, key)) == multiset(s)
    ensures |InsertionSort(s, key)| == |s|
    decreases |s|
  {
    if s != [] {
      InsertionSortPermutation(s[..|s| - 1], key);
      InsertPermutation(InsertionSort(s[..|s| - 1], key), s[|s| - 1], key);
      assert s == s[..|s| - 1] + [s[|s| - 1]];
    }
  }

  // ---- Stability ----

  /** The elements whose key is `k`, in order. */
  function WithKey<T>(s: seq<T>, k: seq<int>, key: T -> seq<int>): seq<T> {
    if s == [] then []
    else WithKey(s[..|s| - 1], k, key) + (if key(s[|s| - 1]) == k then [s[|s| - 1]] else [])
  }

  lemma {:induction false} WithKeyAppend<T>(s: seq<T>, t: seq<T>, k: seq<int>, key: T -> seq<int>)
    ensures WithKey(s + t, k, key) == WithKey(s, k, key) + WithKey(t, k, key)
    decreases |t|
  {
    if t != [] {
      var u := s + t;
      assert u[..|u| - 1] == s + t[..|t| - 1];
      WithKeyAppend(s, t[..|t| - 1], k, key);
    } else {
      assert s + t == s;
    }
  }

  lemma {:induction false} InsertStable<T>(s: seq<T>, x: T, k: seq<int>, key: T -> seq<int>)
    ensures WithKey(Insert(s, x, key), k, key) == WithKey(s, k, key) + WithKey([x], k, key)
    decreases |s|
  {
    if s == [] || !LexLess(key(x), key(s[|s| - 1])) {
      WithKeyAppend(s, [x], k, key);
    } else {
      var init := s[..|s| - 1];
      var last := s[|s| - 1];
      InsertStable(init, x, k, key);
      LexLessIrreflexive(key(x));
      WithKeyAppend(Insert(init, x, key), [last], k, key);
      WithKeyAppend(init, [last], k, key);
      assert s == init + [last];
      WithKeyAppend(init, [x], k, key);
      if key(x) == k {
        assert WithKey([last], k, key) == [];
      } else {
        assert WithKey([x], k, key) == [];
      }
    }
  }

  /** Elements with equal keys keep their relative order. */
  lemma {:induction false} InsertionSortStable<T>(s: seq<T>, k: seq<int>, key: T -> seq<int>)
    ensures WithKey(InsertionSort(s, key), k, key) == WithKey(s, k, key)
    decreases |s|
  {
    if s != [] {
      var init := s[..|s| - 1];
      InsertionSortStable(init, k, key);
      InsertStable(InsertionSort(init, key), s[|s| - 1], k, key);
      WithKeyAppend(init, [s[|s| - 1]], k, key);
      assert s == init + [s[|s| - 1]];
    }
  }

  // ---- In place ----

  lemma InsertSplit<T>(s: seq<T>, j: int, x: T, key: T -> seq<int>)
    requires 0 < j <= |s| && LexLess(key(x), key(s[j - 1]))
    ensures Insert(s[..j], x, key) + s[j..] == Insert(s[..j - 1], x, key) + s[j - 1..]
  {
    assert s[..j][..j - 1] == s[..j - 1];
    assert s[j - 1..] == [s[j - 1]] + s[j..];
  }

  /** Moves `a[i]` left past the greater keys before it, shifting them up by one:
      the prefix `a[..i]` becomes `a[..i + 1]` with the element inserted. */
  method InsertInPlace<T>(a: array<T>, i: int, key: T -> seq<int>)
    requires 0 <= i < a.Length
    modifies a
    ensures a[..i + 1] == Insert(old(a[..i]), old(a[i]), key)
    ensures a[i + 1..] == old(a[i + 1..])
  {
    ghost var S := a[..i];
    var x := a[i];
    var j := i;
    assert S[..j] == S && S[j..] == [];
    while j > 0 && LexLess(key(x), key(a[j - 1]))
      invariant 0 <= j <= i
      invariant forall k :: 0 <= k < j ==> a[k] == S[k]
      invariant forall k :: j < k <= i ==> a[k] == S[k - 1]
      invariant forall k :: i < k < a.Length ==> a[k] == old(a[k])
      invariant Insert(S, x, key) == Insert(S[..j], x, key) + S[j..]
    {
      InsertSplit(S, j, x, key);
      a[j] := a[j - 1];
      j := j - 1;
    }
    a[j] := x;
    if j == 0 {
      assert Insert(S[..0], x, key) == [x];
    } else {
      assert S[..j][j - 1] == a[j - 1];
      assert Insert(S[..j], x, key) == S[..j] + [x];
    }
    assert a[..i + 1] == S[..j] + [x] + S[j..];
  }

  /** Sorts the array in place, inserting each element into the sorted prefix before it. */
  method SortInPlace<T>(a: array<T>, key: T -> seq<int>)
    modifies a
    ensures a[..] == InsertionSort(old(a[..]), key)
  {
    ghost var A := a[..];
    var i := 0;
    while i < a.Length
      invariant 0 <= i <= a.Length
      invariant a[..i] == InsertionSort(A[..i], key)
      invariant a[i..] == A[i..]
    {
      assert a[i] == A[i];
      InsertInPlace(a, i, key);
      assert A[..i + 1][..i] == A[..i];
      assert InsertionSort(A[..i + 1], key) == Insert(InsertionSort(A[..i], key), A[i], key);
      assert a[i + 1..] == A[i + 1..];
      i := i + 1;
    }
    assert A[..a.Length] == A;
  }
}
