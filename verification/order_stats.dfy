/** Sorting a window's coordinates and reading the element at index `n / 2`. */
module OrderStats {

  predicate Sorted(s: seq<real>) {
    forall i, j :: 0 <= i < j < |s| ==> s[i] <= s[j]
  }

  /** Which side of a pivot an element lies on, strictly. */
  datatype Side = Below | Above

  predicate OnSide(e: real, pivot: real, side: Side) {
    match side
    case Below => e < pivot
    case Above => pivot < e
  }

  /** How many elements of `s` lie strictly on `side` of `pivot`. */
  function Count(s: seq<real>, pivot: real, side: Side): (c: nat)
    ensures c <= |s|
    decreases |s|
  {
    if |s| == 0 then 0
    else (if OnSide(s[0], pivot, side) then 1 else 0) + Count(s[1..], pivot, side)
  }

  /** When every element lies on `side`, all of them are counted. */
  lemma {:induction false} CountAll(s: seq<real>, pivot: real, side: Side)
    requires forall k :: 0 <= k < |s| ==> OnSide(s[k], pivot, side)
    ensures Count(s, pivot, side) == |s|
    decreases |s|
  {
    if |s| > 0 {
      CountAll(s[1..], pivot, side);
    }
  }

  /** When no element lies on `side`, none is counted. */
  lemma {:induction false} CountNone(s: seq<real>, pivot: real, side: Side)
    requires forall k :: 0 <= k < |s| ==> !OnSide(s[k], pivot, side)
    ensures Count(s, pivot, side) == 0
    decreases |s|
  {
    if |s| > 0 {
      CountNone(s[1..], pivot, side);
    }
  }

  lemma {:induction false} CountAppend(a: seq<real>, b: seq<real>, pivot: real, side: Side)
    ensures Count(a + b, pivot, side) == Count(a, pivot, side) + Count(b, pivot, side)
    decreases |a|
  {
    if |a| > 0 {
      assert (a + b)[1..] == a[1..] + b;
      CountAppend(a[1..], b, pivot, side);
    } else {
      assert a + b == b;
    }
  }

  /** Counting only looks at the multiset of elements, not their order. */
  lemma {:induction false} CountPermutation(a: seq<real>, b: seq<real>, pivot: real, side: Side)
    requires multiset(a) == multiset(b)
    ensures Count(a, pivot, side) == Count(b, pivot, side)
    decreases |a|
  {
    if |a| > 0 {
      assert a[0] in multiset(b);
      var j :| 0 <= j < |b| && b[j] == a[0];
      var rest := b[..j] + b[j + 1..];
      assert multiset(a[1..]) == multiset(rest) by {
        RemoveAt(b, j);
        TailMultiset(a);
      }
      CountPermutation(a[1..], rest, pivot, side);
      CountRemoveAt(b, j, pivot, side);
    } else {
      assert |b| == |multiset(b)|;
    }
  }

  /** Taking out the element at index `j` takes one copy of it out of the multiset. */
  lemma RemoveAt<T>(s: seq<T>, j: int)
    requires 0 <= j < |s|
    ensures multiset(s[..j] + s[j + 1..]) == multiset(s) - multiset{s[j]}
  {
    assert s == s[..j] + [s[j]] + s[j + 1..];
  }

  lemma CountRemoveAt(s: seq<real>, j: int, pivot: real, side: Side)
    requires 0 <= j < |s|
    ensures Count(s, pivot, side)
      == Count(s[..j] + s[j + 1..], pivot, side) + (if OnSide(s[j], pivot, side) then 1 else 0)
  {
    assert s == s[..j] + ([s[j]] + s[j + 1..]);
    CountAppend(s[..j], [s[j]] + s[j + 1..], pivot, side);
    CountAppend(s[..j], s[j + 1..], pivot, side);
  }

  /** Every element of `s` is at least `lo`. */
  predicate AtLeast(s: seq<real>, lo: real) {
    forall k :: 0 <= k < |s| ==> lo <= s[k]
  }

  lemma AtLeastPermutation(a: seq<real>, b: seq<real>, lo: real)
    requires multiset(a) == multiset(b) && AtLeast(b, lo)
    ensures AtLeast(a, lo)
  {
    forall k | 0 <= k < |a|
      ensures lo <= a[k]
    {
      assert a[k] in multiset(b);
      var j :| 0 <= j < |b| && b[j] == a[k];
    }
  }

  lemma SortedCons(h: real, t: seq<real>)
    requires Sorted(t) && AtLeast(t, h)
    ensures Sorted([h] + t)
  {
    assert forall k :: 1 <= k < |t| + 1 ==> ([h] + t)[k] == t[k - 1];
  }

  /** Places `x` into a sorted sequence. */
  function Insert(x: real, s: seq<real>): (r: seq<real>)
    requires Sorted(s)
    ensures Sorted(r) && multiset(r) == multiset(s) + multiset{x}
    decreases |s|
  {
    if |s| == 0 then [x]
    else if x <= s[0] then
      assert s == [s[0]] + s[1..];
      [x] + s
    else
      SortedTail(s);
      var rest := Insert(x, s[1..]);
      InsertBehindHead(x, s, rest);
      [s[0]] + rest
  }

  /** When `x` goes further back, the head stays in front of the rest with `x` in it. */
  lemma InsertBehindHead(x: real, s: seq<real>, rest: seq<real>)
    requires Sorted(s) && |s| > 0 && s[0] < x
    requires Sorted(rest) && multiset(rest) == multiset(s[1..]) + multiset{x}
    ensures Sorted([s[0]] + rest) && multiset([s[0]] + rest) == multiset(s) + multiset{x}
  {
    assert s == [s[0]] + s[1..];
    assert AtLeast([x] + s[1..], s[0]);
    assert multiset(rest) == multiset([x] + s[1..]);
    AtLeastPermutation(rest, [x] + s[1..], s[0]);
    SortedCons(s[0], rest);
  }

  /** Python's `sorted()` on the coordinates: an ascending permutation of its input. */
  function Sort(s: seq<real>): (r: seq<real>)
    ensures Sorted(r) && multiset(r) == multiset(s)
    decreases |s|
  {
    if |s| == 0 then []
    else
      assert s == [s[0]] + s[1..];
      Insert(s[0], Sort(s[1..]))
  }

  /** There is only one ascending arrangement of a multiset, so any sorting algorithm
      (Python's is Timsort) gives the same sequence as `Sort`. */
  lemma {:induction false} SortedUnique(a: seq<real>, b: seq<real>)
    requires Sorted(a) && Sorted(b) && multiset(a) == multiset(b)
    ensures a == b
    decreases |a|
  {
    if |a| > 0 {
      assert |b| > 0 && a[0] == b[0] by {
        SameLeast(a, b);
      }
      assert multiset(a[1..]) == multiset(b[1..]) by {
        TailMultiset(a);
        TailMultiset(b);
      }
      assert Sorted(a[1..]) && Sorted(b[1..]) by {
        SortedTail(a);
        SortedTail(b);
      }
      SortedUnique(a[1..], b[1..]);
      assert a == [a[0]] + a[1..];
      assert b == [b[0]] + b[1..];
    } else {
      assert |b| == |multiset(b)| == 0;
    }
  }

  lemma TailMultiset(s: seq<real>)
    requires |s| > 0
    ensures multiset(s[1..]) == multiset(s) - multiset{s[0]}
  {
    assert s == [s[0]] + s[1..];
  }

  /** Two ascending arrangements of one multiset start with the same element. */
  lemma SameLeast(a: seq<real>, b: seq<real>)
    requires Sorted(a) && Sorted(b) && multiset(a) == multiset(b) && |a| > 0
    ensures |b| > 0 && a[0] == b[0]
  {
    assert a[0] in multiset(b);
    var j :| 0 <= j < |b| && b[j] == a[0];
    assert b[0] in multiset(a);
    var i :| 0 <= i < |a| && a[i] == b[0];
  }

  lemma SortedTail(s: seq<real>)
    requires Sorted(s) && |s| > 0
    ensures Sorted(s[1..])
  {
    assert forall k :: 0 <= k < |s| - 1 ==> s[1..][k] == s[k + 1];
  }

  /** The source's median: the element at index `n / 2` of the sorted values. For odd `n`
      it is the middle one; for even `n` it is the upper of the two middle ones, never
      their average. At most `n / 2` values lie strictly below it and at most
      `n - n / 2 - 1` strictly above it. */
  function Median(xs: seq<real>): (m: real)
    requires |xs| > 0
    ensures m in xs
    ensures Count(xs, m, Below) <= |xs| / 2
    ensures Count(xs, m, Above) <= |xs| - |xs| / 2 - 1
  {
    var s := Sort(xs);
    SortedRanks(xs, s);
    s[|xs| / 2]
  }

  lemma SortedRanks(xs: seq<real>, s: seq<real>)
    requires |xs| > 0 && Sorted(s) && multiset(s) == multiset(xs)
    ensures |s| == |xs|
    ensures s[|xs| / 2] in xs
    ensures Count(xs, s[|xs| / 2], Below) <= |xs| / 2
    ensures Count(xs, s[|xs| / 2], Above) <= |xs| - |xs| / 2 - 1
  {
    assert |s| == |multiset(s)| == |xs|;
    var k := |xs| / 2;
    assert s[k] in multiset(s);
    CountPermutation(xs, s, s[k], Below);
    CountPermutation(xs, s, s[k], Above);
    SortedRank(s, k);
  }

  /** In a sorted sequence, fewer than `k + 1` elements lie below `s[k]` and fewer than
      `|s| - k` above it. */
  lemma SortedRank(s: seq<real>, k: int)
    requires Sorted(s) && 0 <= k < |s|
    ensures Count(s, s[k], Below) <= k
    ensures Count(s, s[k], Above) <= |s| - k - 1
  {
    SortedRankBelow(s, k);
    SortedRankAbove(s, k);
  }

  lemma SortedRankBelow(s: seq<real>, k: int)
    requires Sorted(s) && 0 <= k < |s|
    ensures Count(s, s[k], Below) <= k
  {
    var hi := s[k..];
    assert forall i :: 0 <= i < |hi| ==> hi[i] == s[k + i];
    assert s == s[..k] + hi;
    CountAppend(s[..k], hi, s[k], Below);
    CountNone(hi, s[k], Below);
  }

  lemma SortedRankAbove(s: seq<real>, k: int)
    requires Sorted(s) && 0 <= k < |s|
    ensures Count(s, s[k], Above) <= |s| - k - 1
  {
    var lo := s[..k + 1];
    assert forall i :: 0 <= i < |lo| ==> lo[i] == s[i];
    assert s == lo + s[k + 1..];
    CountAppend(lo, s[k + 1..], s[k], Above);
    CountNone(lo, s[k], Above);
  }

  /** In a sorted sequence, a value below `s[k]` has at least `|s| - k` elements above
      it, and a value above `s[k]` at least `k + 1` elements below it. */
  lemma SortedRankOf(s: seq<real>, k: int, v: real)
    requires Sorted(s) && 0 <= k < |s|
    ensures v < s[k] ==> Count(s, v, Above) >= |s| - k
    ensures s[k] < v ==> Count(s, v, Below) >= k + 1
  {
    if v < s[k] {
      assert s == s[..k] + s[k..];
      CountAppend(s[..k], s[k..], v, Above);
      CountAll(s[k..], v, Above);
    } else if s[k] < v {
      assert s == s[..k + 1] + s[k + 1..];
      CountAppend(s[..k + 1], s[k + 1..], v, Below);
      CountAll(s[..k + 1], v, Below);
    }
  }

  /** The two rank bounds single the median out: a value meeting both is the median. */
  lemma MedianUnique(xs: seq<real>, v: real)
    requires |xs| > 0
    ensures v == Median(xs) <==>
      Count(xs, v, Below) <= |xs| / 2 && Count(xs, v, Above) <= |xs| - |xs| / 2 - 1
  {
    var s := Sort(xs);
    assert |s| == |multiset(s)| == |xs|;
    CountPermutation(xs, s, v, Above);
    CountPermutation(xs, s, v, Below);
    SortedRankOf(s, |xs| / 2, v);
  }

  /** Whatever algorithm sorts the values, the element at index `n / 2` is `Median`. */
  lemma MedianOfAnySort(xs: seq<real>, s: seq<real>)
    requires |xs| > 0 && Sorted(s) && multiset(s) == multiset(xs)
    ensures |s| == |xs| && Median(xs) == s[|xs| / 2]
  {
    assert |s| == |multiset(s)| == |xs|;
    SortedUnique(Sort(xs), s);
  }

  /** Three values, in any order: the true middle. */
  lemma MedianOfThree(xs: seq<real>)
    requires multiset(xs) == multiset([1.0, 2.0, 3.0])
    ensures |xs| == 3 && Median(xs) == 2.0
  {
    MedianOfAnySort(xs, [1.0, 2.0, 3.0]);
  }

  /** Two values: the upper one, not their average. */
  lemma MedianOfTwo()
    ensures Median([1.0, 2.0]) == 2.0
  {
    MedianOfAnySort([1.0, 2.0], [1.0, 2.0]);
  }
}
