/**
 Binary-heap order on the list of due times, and why the sift steps of Go's
 `container/heap` restore it (used by internal/prefetch.go:104-134, 209-323).
 */
module DueHeap {

  function Parent(k: nat): nat
    requires k >= 1
  {
    (k - 1) / 2
  }

  ghost predicate Ordered(d: seq<int>, k: nat)
    requires 1 <= k < |d|
  {
    d[Parent(k)] <= d[k]
  }

  /** The first `n` due times form a min-heap. */
  ghost predicate HeapOrdered(d: seq<int>, n: nat)
    requires n <= |d|
  {
    forall k :: 1 <= k < n ==> Ordered(d, k)
  }

  /** The parent of `j` is no later than the children of `j`. */
  ghost predicate Bridged(d: seq<int>, n: nat, j: nat)
    requires j < n <= |d|
  {
    forall k :: 1 <= k < n && Parent(k) == j && j >= 1 ==> d[Parent(j)] <= d[k]
  }

  /** Heap order everywhere except between position `j` and its neighbours. */
  ghost predicate BrokenAt(d: seq<int>, n: nat, j: nat)
    requires j < n <= |d|
  {
    && (forall k :: 1 <= k < n && k != j && Parent(k) != j ==> Ordered(d, k))
    && Bridged(d, n, j)
  }

  /** Heap order everywhere except between position `j` and its parent. */
  ghost predicate BrokenAbove(d: seq<int>, n: nat, j: nat)
    requires j < n <= |d|
  {
    && (forall k :: 1 <= k < n && k != j ==> Ordered(d, k))
    && Bridged(d, n, j)
  }

  /** Sifting down from `top` has reached `i`: only the children of `i`, and `top`
      itself before the first swap, may be out of order. */
  ghost predicate SiftingDown(d: seq<int>, n: nat, top: nat, i: nat)
    requires top <= i < n <= |d|
  {
    && (forall k :: 1 <= k < n && Parent(k) != i && (k != top || i != top) ==> Ordered(d, k))
    && Bridged(d, n, i)
  }

  function Swapped<T>(s: seq<T>, i: nat, j: nat): (r: seq<T>)
    requires i < |s| && j < |s|
    ensures |r| == |s|
  {
    s[i := s[j]][j := s[i]]
  }

  lemma SwapUp(d: seq<int>, n: nat, j: nat)
    requires 1 <= j < n <= |d| && BrokenAbove(d, n, j) && d[j] < d[Parent(j)]
    ensures BrokenAbove(Swapped(d, Parent(j), j), n, Parent(j))
  {
    var i := Parent(j);
    var e := Swapped(d, i, j);
    forall k | 1 <= k < n && k != i ensures Ordered(e, k) {
      if k != j { assert Ordered(d, k); }
    }
    forall k | 1 <= k < n && Parent(k) == i && i >= 1 ensures e[Parent(i)] <= e[k] {
      assert Ordered(d, i);
      if k != j { assert Ordered(d, k); }
    }
  }

  lemma SwapDown(d: seq<int>, n: nat, top: nat, i: nat, j: nat)
    requires top <= i < n <= |d| && SiftingDown(d, n, top, i)
    requires 1 <= j < n && Parent(j) == i && d[j] < d[i]
    requires forall k :: 1 <= k < n && Parent(k) == i ==> d[j] <= d[k]
    ensures SiftingDown(Swapped(d, i, j), n, top, j)
  {
  }

  /** The child that `container/heap` compares with its parent is the earlier one. */
  lemma EarlierChild(d: seq<int>, n: nat, i: nat, j: nat)
    requires 2 * i + 1 < n <= |d|
    requires j == if 2 * i + 2 < n && d[2 * i + 2] < d[2 * i + 1] then 2 * i + 2 else 2 * i + 1
    ensures Parent(j) == i
    ensures forall k :: 1 <= k < n && Parent(k) == i ==> d[j] <= d[k]
  {
  }

  /** Where sifting down stops, the heap is whole again, except that a sift which never
      moved leaves the link from `top` to its parent open. */
  lemma SiftStops(d: seq<int>, n: nat, top: nat, i: nat)
    requires top <= i < n <= |d| && SiftingDown(d, n, top, i)
    requires forall k :: 1 <= k < n && Parent(k) == i ==> d[i] <= d[k]
    ensures i > top ==> HeapOrdered(d, n)
    ensures i == top ==> BrokenAbove(d, n, top)
  {
  }

  /** The first element of a heap is its minimum. */
  lemma {:induction false} HeapMinimum(d: seq<int>, n: nat, k: nat)
    requires k < n <= |d| && HeapOrdered(d, n)
    ensures d[0] <= d[k]
  {
    if k > 0 {
      assert Ordered(d, k);
      HeapMinimum(d, n, Parent(k));
    }
  }

  /** Overwriting one due time breaks the heap only there. */
  lemma ChangeBreaksLocally(d: seq<int>, i: nat, due: int)
    requires i < |d| && HeapOrdered(d, |d|)
    ensures BrokenAt(d[i := due], |d|, i)
  {
    var e := d[i := due];
    forall k | 1 <= k < |d| && k != i && Parent(k) != i ensures Ordered(e, k) {
      assert Ordered(d, k);
    }
    forall k | 1 <= k < |d| && Parent(k) == i && i >= 1 ensures e[Parent(i)] <= e[k] {
      assert Ordered(d, k) && Ordered(d, i);
    }
  }

  lemma AppendBreaksAbove(d: seq<int>, due: int)
    requires HeapOrdered(d, |d|)
    ensures BrokenAbove(d + [due], |d| + 1, |d|)
  {
    var e := d + [due];
    forall k | 1 <= k < |d| ensures Ordered(e, k) {
      assert Ordered(d, k);
    }
  }

  /** Moving the last element into position `i` breaks the shortened heap only there. */
  lemma LastIntoBreaksLocally(d: seq<int>, n: nat, i: nat)
    requires |d| == n + 1 && i < n && HeapOrdered(d, n + 1)
    ensures BrokenAt(Swapped(d, i, n), n, i)
  {
    var e := Swapped(d, i, n);
    forall k | 1 <= k < n && k != i && Parent(k) != i ensures Ordered(e, k) {
      assert Ordered(d, k);
    }
    forall k | 1 <= k < n && Parent(k) == i && i >= 1 ensures e[Parent(i)] <= e[k] {
      assert Ordered(d, k) && Ordered(d, i);
    }
  }

  lemma PrefixOrdered(d: seq<int>, n: nat)
    requires n <= |d| && HeapOrdered(d, n)
    ensures HeapOrdered(d[..n], n)
  {
    forall k | 1 <= k < n ensures Ordered(d[..n], k) {
      assert Ordered(d, k);
    }
  }
}
