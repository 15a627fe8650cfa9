/** `Array.prototype.sort` with a comparator, as the components call it: it
    reorders the array in place so that the comparator's order holds between
    every pair of positions. A comparator returning a number `c(a, b)` is
    modelled by the relation `le(a, b)`, "a may stay before b", which is
    `c(a, b) <= 0`. */
module ArraySort {

  /** `le` is total and transitive, as a consistent comparator is. */
  ghost predicate TotalPreorder<T(!new)>(le: (T, T) -> bool) {
    (forall x, y :: le(x, y) || le(y, x)) &&
    (forall x, y, z :: le(x, y) && le(y, z) ==> le(x, z))
  }

  /** Every earlier element may stay before every later one. */
  ghost predicate SortedBy<T>(s: seq<T>, le: (T, T) -> bool) {
    forall i, j :: 0 <= i < j < |s| ==> le(s[i], s[j])
  }

  /** The first `n` elements of `s` are sorted by `le`. */
  ghost predicate SortedPrefix<T>(s: seq<T>, n: int, le: (T, T) -> bool)
    requires 0 <= n <= |s|
  {
    forall p, q :: 0 <= p < q < n ==> le(s[p], s[q])
  }

  /** Sorts `a` in place by `le`. The new contents are ordered by `le` and
      are a permutation of the old contents. */
  method SortInPlace<T(!new)>(a: array<T>, le: (T, T) -> bool)
    requires TotalPreorder(le)
    modifies a
    ensures SortedBy(a[..], le)
    ensures multiset(a[..]) == multiset(old(a[..]))
  {
    var i := 0;
    while i < a.Length
      invariant 0 <= i <= a.Length
      invariant SortedPrefix(a[..], i, le)
      invariant multiset(a[..]) == multiset(old(a[..]))
    {
      InsertAt(a, i, le);
      i := i + 1;
    }
  }

  /** Moves `a[i]` down into the sorted prefix `a[..i]`. */
  method InsertAt<T(!new)>(a: array<T>, i: int, le: (T, T) -> bool)
    requires TotalPreorder(le)
    requires 0 <= i < a.Length
    requires SortedPrefix(a[..], i, le)
    modifies a
    ensures SortedPrefix(a[..], i + 1, le)
    ensures multiset(a[..]) == multiset(old(a[..]))
  {
    var j := i;
    while j > 0 && !le(a[j - 1], a[j])
      invariant 0 <= j <= i
      invariant multiset(a[..]) == multiset(old(a[..]))
      invariant Inserting(a[..], i, j, le)
    {
      SwapStep(a[..], i, j, le);
      a[j - 1], a[j] := a[j], a[j - 1];
      j := j - 1;
    }
    InsertDone(a[..], i, j, le);
  }

  /** While `a[i]`'s element travels down to position `j`, the positions up
      to `i` other than `j` stay sorted, the travelling element may stay
      before all that follow it, and everything before it may stay before
      everything after it. */
  ghost predicate Inserting<T>(s: seq<T>, i: int, j: int, le: (T, T) -> bool)
    requires 0 <= j <= i < |s|
  {
    (forall p, q :: 0 <= p < q <= i && p != j && q != j ==> le(s[p], s[q])) &&
    (forall q :: j < q <= i ==> le(s[j], s[q])) &&
    (forall p, q :: 0 <= p < j < q <= i ==> le(s[p], s[q]))
  }

  lemma SwapStep<T(!new)>(s: seq<T>, i: int, j: int, le: (T, T) -> bool)
    requires TotalPreorder(le)
    requires 0 < j <= i < |s|
    requires Inserting(s, i, j, le) && !le(s[j - 1], s[j])
    ensures Inserting(s[j - 1 := s[j]][j := s[j - 1]], i, j - 1, le)
  {
    assert le(s[j], s[j - 1]);
  }

  lemma InsertDone<T(!new)>(s: seq<T>, i: int, j: int, le: (T, T) -> bool)
    requires TotalPreorder(le)
    requires 0 <= j <= i < |s|
    requires Inserting(s, i, j, le) && (j == 0 || le(s[j - 1], s[j]))
    ensures SortedPrefix(s, i + 1, le)
  {
    forall p, q | 0 <= p < q <= i
      ensures le(s[p], s[q])
    {
      if q == j && p < j - 1 {
        assert le(s[p], s[j - 1]);
      }
    }
  }
}
