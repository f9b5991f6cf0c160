/** The two bounded buffers of the filter: a `deque(maxlen=...)` and a list cut back to
    its last elements. */
module Buffers {

  /** The last `n` elements of `s`, or all of `s` when it is no longer than `n`. For
      `n > 0` this is `s[-n:]` guarded by `len(s) > n`, as the display history is cut
      back; for `n == 0` it is empty, whereas Python's `s[-0:]` is all of `s`. */
  function Keep<T>(s: seq<T>, n: nat): (r: seq<T>)
    ensures |r| == (if |s| <= n then |s| else n)
    ensures r == s[|s| - |r|..]
  {
    if |s| <= n then s else s[|s| - n..]
  }

  /** Cutting back twice is cutting back once: keeping the last `n` of what was kept,
      extended by `t`, is keeping the last `n` of the whole. */
  lemma KeepKeep<T>(s: seq<T>, t: seq<T>, n: nat)
    ensures Keep(Keep(s, n) + t, n) == Keep(s + t, n)
  {
    var k := Keep(s, n);
    assert s == s[..|s| - |k|] + k;
    assert s + t == s[..|s| - |k|] + (k + t);
    var u := k + t;
    if |u| > n {
      assert (s + t)[|s + t| - n..] == u[|u| - n..];
    }
  }

  /** `deque.append(x)` on a deque created with `maxlen`: when the deque is full the
      oldest element falls out of the front. */
  function DequeAppend<T>(q: seq<T>, x: T, maxlen: nat): (r: seq<T>)
    requires 0 < maxlen && |q| <= maxlen
    ensures r == Keep(q + [x], maxlen)
  {
    if |q| < maxlen then q + [x] else q[1..] + [x]
  }

  /** A full deque loses exactly its oldest element and keeps the rest in arrival order;
      one with room loses nothing. */
  lemma DequeAppendFifo<T>(q: seq<T>, x: T, maxlen: nat)
    requires 0 < maxlen && |q| <= maxlen
    ensures |DequeAppend(q, x, maxlen)| == (if |q| < maxlen then |q| + 1 else maxlen)
    ensures |q| == maxlen ==> DequeAppend(q, x, maxlen) == q[1..] + [x]
    ensures |q| < maxlen ==> DequeAppend(q, x, maxlen) == q + [x]
  {
  }

  /** Once at least `n` elements follow, only they are kept. */
  lemma KeepLatest<T>(s: seq<T>, t: seq<T>, n: nat)
    requires |t| >= n
    ensures Keep(s + t, n) == t[|t| - n..]
  {
    var u := s + t;
    if |u| <= n {
      assert s == [] && u == t;
    } else {
      SuffixOfAppend(s, t, n);
    }
  }

  lemma SuffixOfAppend<T>(s: seq<T>, t: seq<T>, n: nat)
    requires n <= |t|
    ensures (s + t)[|s + t| - n..] == t[|t| - n..]
  {
    var u := s + t;
    var a, b := u[|u| - n..], t[|t| - n..];
    assert forall k :: 0 <= k < n ==> a[k] == u[|u| - n + k] == t[|t| - n + k] == b[k];
  }

  /** Nothing is cut while the bound is not exceeded. */
  lemma KeepWithinBound<T>(s: seq<T>, n: nat)
    ensures |s| <= n ==> Keep(s, n) == s
  {
  }

  lemma AppendAssoc<T>(a: seq<T>, b: seq<T>, c: seq<T>)
    ensures a + b + c == a + (b + c)
  {
  }
}
