/** Small shared vocabulary: an optional value, JavaScript's order-preserving
    `Array.prototype.filter`, and what it means for one list to be an
    order-preserving subsequence of another. */
module Base {

  /** `T | undefined` in the source. */
  datatype Option<+T> = None | Some(value: T) {

    /** `x ?? default` */
    function GetOr(default: T): T {
      match this
      case Some(v) => v
      case None => default
    }
  }

  /** `a` can be obtained from `b` by deleting elements, without reordering. */
  predicate IsSubsequence<T(==)>(a: seq<T>, b: seq<T>)
    decreases |b|
  {
    if b == [] then a == []
    else IsSubsequence(a, b[1..]) || (a != [] && a[0] == b[0] && IsSubsequence(a[1..], b[1..]))
  }

  /** `s.filter(keep)`: the elements of `s` that satisfy `keep`, in their original order. */
  function Filter<T>(s: seq<T>, keep: T -> bool): (r: seq<T>)
    ensures |r| <= |s|
    ensures forall i :: 0 <= i < |r| ==> r[i] in s && keep(r[i])
    ensures forall i :: 0 <= i < |s| && keep(s[i]) ==> s[i] in r
    ensures (forall i :: 0 <= i < |s| ==> keep(s[i])) <==> |r| == |s|
    ensures (forall i :: 0 <= i < |s| ==> keep(s[i])) ==> r == s
  {
    if s == [] then []
    else
      var rest := Filter(s[1..], keep);
      assert s == [s[0]] + s[1..];
      if keep(s[0]) then [s[0]] + rest else rest
  }

  /** Filtering keeps every copy of an element that passes and no copy of one
      that fails: the count of each value is fixed, not just membership. */
  lemma {:induction false} FilterCounts<T>(s: seq<T>, keep: T -> bool)
    ensures forall x :: multiset(Filter(s, keep))[x] == if keep(x) then multiset(s)[x] else 0
  {
    if s != [] {
      FilterCounts(s[1..], keep);
      var rest := Filter(s[1..], keep);
      assert s == [s[0]] + s[1..];
      assert multiset(s) == multiset([s[0]]) + multiset(s[1..]);
      if keep(s[0]) {
        assert Filter(s, keep) == [s[0]] + rest;
        assert multiset([s[0]] + rest) == multiset([s[0]]) + multiset(rest);
      } else {
        assert Filter(s, keep) == rest;
      }
    }
  }

  lemma {:induction false} FilterIsSubsequence<T>(s: seq<T>, keep: T -> bool)
    ensures IsSubsequence(Filter(s, keep), s)
  {
    if s != [] {
      FilterIsSubsequence(s[1..], keep);
    }
  }

  /** Filtering distributes over concatenation. */
  lemma {:induction false} FilterConcat<T>(a: seq<T>, b: seq<T>, keep: T -> bool)
    ensures Filter(a + b, keep) == Filter(a, keep) + Filter(b, keep)
  {
    if a == [] {
      assert a + b == b;
    } else {
      assert (a + b)[1..] == a[1..] + b;
      FilterConcat(a[1..], b, keep);
    }
  }

  /** When only the element at `k` fails the test, filtering removes exactly that element. */
  lemma {:induction false} FilterDropsAt<T>(s: seq<T>, k: int, keep: T -> bool)
    requires 0 <= k < |s|
    requires forall i :: 0 <= i < |s| && i != k ==> keep(s[i])
    requires !keep(s[k])
    ensures Filter(s, keep) == s[..k] + s[k + 1..]
  {
    var tail := s[1..];
    if k == 0 {
      assert forall i :: 0 <= i < |tail| ==> keep(tail[i]) by {
        forall i | 0 <= i < |tail| ensures keep(tail[i]) {
          assert tail[i] == s[i + 1];
        }
      }
      assert Filter(s, keep) == Filter(tail, keep);
    } else {
      forall i | 0 <= i < |tail| && i != k - 1 ensures keep(tail[i]) {
        assert tail[i] == s[i + 1];
      }
      assert tail[k - 1] == s[k];
      calc {
        Filter(s, keep);
        [s[0]] + Filter(tail, keep);
        { FilterDropsAt(tail, k - 1, keep); }
        [s[0]] + (tail[..k - 1] + tail[k..]);
        ([s[0]] + tail[..k - 1]) + tail[k..];
        { assert [s[0]] + tail[..k - 1] == s[..k];
          assert tail[k..] == s[k + 1..]; }
        s[..k] + s[k + 1..];
      }
    }
  }

  /** A prefix is the shorter prefix followed by its last element. */
  lemma PrefixSnoc<T>(s: seq<T>, n: int)
    requires 0 < n <= |s|
    ensures s[..n] == s[..n - 1] + [s[n - 1]]
  {
  }

  /** How JavaScript's `slice` and `splice` read a position argument on a
      sequence of length `len`: a negative position counts from the end, and
      the result is clamped into `0..len`. */
  function RelativeIndex(pos: int, len: nat): (r: nat)
    ensures r <= len
    ensures 0 <= pos <= len ==> r == pos
    ensures pos > len ==> r == len
    ensures pos < 0 ==> r == if len + pos < 0 then 0 else len + pos
  {
    if pos < 0 then (if len + pos < 0 then 0 else len + pos)
    else if pos > len then len
    else pos
  }
}
