/**
  The firmware's in-place quicksort on an int array, modelled on sequence
  values: each operation takes the array's contents and returns the
  contents afterwards. Index ranges are inclusive, `low..high`, as in the
  firmware.
 */
module Sorting {

  /** The slots lo..hi-1 are in ascending order. */
  predicate SortedRange(s: seq<int>, lo: int, hi: int)
    requires 0 <= lo <= hi <= |s|
  {
    forall i, j :: lo <= i < j < hi ==> s[i] <= s[j]
  }

  /** b differs from a at most in the inclusive range low..high. */
  predicate SameOutside(a: seq<int>, b: seq<int>, low: int, high: int) {
    |b| == |a| && forall k :: 0 <= k < |a| && !(low <= k <= high) ==> b[k] == a[k]
  }

  /** Exchanges the values at i and j; nothing else changes. */
  function Swap(s: seq<int>, i: int, j: int): (r: seq<int>)
    requires 0 <= i < |s| && 0 <= j < |s|
    ensures |r| == |s|
    ensures r[i] == s[j] && r[j] == s[i]
    ensures forall k :: 0 <= k < |s| && k != i && k != j ==> r[k] == s[k]
    ensures multiset(r) == multiset(s)
  {
    s[i := s[j]][j := s[i]]
  }

  /** Swapping twice gives the array back. */
  lemma SwapInvolution(s: seq<int>, i: int, j: int)
    requires 0 <= i < |s| && 0 <= j < |s|
    ensures Swap(Swap(s, i, j), i, j) == s
  {
    var r := Swap(Swap(s, i, j), i, j);
    assert forall k :: 0 <= k < |s| ==> r[k] == s[k];
  }

  /** A sequence's values are those of its three pieces. */
  lemma SplitMultiset(a: seq<int>, lo: int, hi: int)
    requires 0 <= lo <= hi <= |a|
    ensures multiset(a) == multiset(a[..lo]) + multiset(a[lo..hi]) + multiset(a[hi..])
  {
    assert a == a[..lo] + a[lo..hi] + a[hi..];
  }

  /**
    A rearrangement that leaves everything outside lo..hi-1 in place
    rearranges the slice lo..hi-1 itself.
   */
  lemma RangePermutation(a: seq<int>, b: seq<int>, lo: int, hi: int)
    requires 0 <= lo <= hi <= |a| == |b|
    requires multiset(b) == multiset(a)
    requires forall k :: 0 <= k < |a| && !(lo <= k < hi) ==> b[k] == a[k]
    ensures multiset(b[lo..hi]) == multiset(a[lo..hi])
  {
    SplitMultiset(a, lo, hi);
    SplitMultiset(b, lo, hi);
    assert a[..lo] == b[..lo];
    assert a[hi..] == b[hi..];
    forall x
      ensures multiset(b[lo..hi])[x] == multiset(a[lo..hi])[x]
    {
      assert multiset(b)[x] == multiset(a)[x];
    }
  }

  /** Bounds on every value of a slice survive any rearrangement of that slice. */
  lemma PermutedBounds(a: seq<int>, b: seq<int>, lo: int, hi: int, x: int)
    requires 0 <= lo <= hi <= |a| && hi <= |b|
    requires multiset(b[lo..hi]) == multiset(a[lo..hi])
    ensures (forall k :: lo <= k < hi ==> a[k] < x) ==> forall k :: lo <= k < hi ==> b[k] < x
    ensures (forall k :: lo <= k < hi ==> a[k] >= x) ==> forall k :: lo <= k < hi ==> b[k] >= x
  {
    forall k | lo <= k < hi
      ensures exists m :: lo <= m < hi && a[m] == b[k]
    {
      assert b[k] == b[lo..hi][k - lo];
      assert b[k] in multiset(a[lo..hi]);
      var m :| 0 <= m < hi - lo && a[lo..hi][m] == b[k];
      assert a[lo + m] == b[k];
    }
  }

  /**
    The last step of the partition: with b[low..i] below the pivot and
    b[i+1..high-1] at least the pivot, swapping the pivot from high to
    i+1 puts it between the two parts.
   */
  lemma PlacePivot(b: seq<int>, low: int, high: int, i: int, pivot: int, c: seq<int>)
    requires 0 <= low && low - 1 <= i < high < |b| && b[high] == pivot
    requires forall k :: low <= k <= i ==> b[k] < pivot
    requires forall k :: i < k < high ==> b[k] >= pivot
    requires c == Swap(b, i + 1, high)
    ensures c[i + 1] == pivot
    ensures forall k :: low <= k < i + 1 ==> c[k] < c[i + 1]
    ensures forall k :: i + 1 < k <= high ==> c[k] >= c[i + 1]
  {
  }

  /**
    One pass of the partition loop at j: a value below the pivot is
    swapped to the end of the lower part, which grows by one; either way
    the part at least the pivot now runs up to j.
   */
  method PartitionStep(a: seq<int>, b: seq<int>, low: int, high: int, i: int, j: int, pivot: int)
    returns (b': seq<int>, i': int)
    requires 0 <= low <= j < high < |a| && low - 1 <= i < j
    requires SameOutside(a, b, low, high) && multiset(b) == multiset(a) && b[high] == pivot
    requires forall k :: low <= k <= i ==> b[k] < pivot
    requires forall k :: i < k < j ==> b[k] >= pivot
    ensures low - 1 <= i' < j + 1
    ensures SameOutside(a, b', low, high) && multiset(b') == multiset(a) && b'[high] == pivot
    ensures forall k :: low <= k <= i' ==> b'[k] < pivot
    ensures forall k :: i' < k < j + 1 ==> b'[k] >= pivot
  {
    if b[j] < pivot {
      i' := i + 1;
      b' := Swap(b, i', j);
    } else {
      b', i' := b, i;
    }
  }

  /**
    Lomuto partition of low..high around the pivot a[high]: returns the
    pivot's final position p, with every value before it (in the range)
    strictly smaller and every value after it at least the pivot. Only the
    range is rearranged.
   */
  method Partition(a: seq<int>, low: int, high: int) returns (b: seq<int>, p: int)
    requires 0 <= low <= high < |a|
    ensures low <= p <= high
    ensures SameOutside(a, b, low, high)
    ensures multiset(b) == multiset(a)
    ensures b[p] == a[high]
    ensures forall k :: low <= k < p ==> b[k] < b[p]
    ensures forall k :: p < k <= high ==> b[k] >= b[p]
  {
    var pivot := a[high];
    b := a;
    var i := low - 1;
    var j := low;
    while j <= high - 1
      invariant low <= j <= high
      invariant low - 1 <= i < j
      invariant SameOutside(a, b, low, high)
      invariant multiset(b) == multiset(a)
      invariant b[high] == pivot
      invariant forall k :: low <= k <= i ==> b[k] < pivot
      invariant forall k :: i < k < j ==> b[k] >= pivot
    {
      b, i := PartitionStep(a, b, low, high, i, j, pivot);
      j := j + 1;
    }
    var c := Swap(b, i + 1, high);
    PlacePivot(b, low, high, i, pivot, c);
    b, p := c, i + 1;
  }

  /** Two sorted runs either side of a pivot that separates them make one sorted run. */
  lemma JoinAroundPivot(b: seq<int>, low: int, p: int, high: int)
    requires 0 <= low <= p <= high < |b|
    requires SortedRange(b, low, p) && SortedRange(b, p + 1, high + 1)
    requires forall k :: low <= k < p ==> b[k] < b[p]
    requires forall k :: p < k <= high ==> b[k] >= b[p]
    ensures SortedRange(b, low, high + 1)
  {
  }

  /**
    After partitioning (b1) and sorting the part left of the pivot (b2)
    and then the part right of it (b), the whole range is sorted: sorting
    a part only rearranges it, so the pivot still separates the parts.
   */
  lemma SortedAfterBothHalves(b1: seq<int>, b2: seq<int>, b: seq<int>, low: int, p: int, high: int)
    requires 0 <= low <= p <= high < |b1|
    requires forall k :: low <= k < p ==> b1[k] < b1[p]
    requires forall k :: p < k <= high ==> b1[k] >= b1[p]
    requires SameOutside(b1, b2, low, p - 1) && multiset(b2) == multiset(b1)
    requires SameOutside(b2, b, p + 1, high) && multiset(b) == multiset(b2)
    requires low < p - 1 ==> SortedRange(b2, low, p)
    requires p + 1 < high ==> SortedRange(b, p + 1, high + 1)
    ensures SortedRange(b, low, high + 1)
  {
    var pivot := b1[p];
    RangePermutation(b1, b2, low, p);
    PermutedBounds(b1, b2, low, p, pivot);
    RangePermutation(b2, b, p + 1, high + 1);
    PermutedBounds(b2, b, p + 1, high + 1, pivot);
    assert SortedRange(b, low, p) by {
      assert forall k :: low <= k < p ==> b[k] == b2[k];
    }
    JoinAroundPivot(b, low, p, high);
  }

  /**
    Quicksort of the inclusive range low..high: afterwards the range is in
    ascending order, it holds the same values as before, and nothing
    outside it has moved. An empty or one-element range is left alone,
    whatever low and high are.
   */
  method Quicksort(a: seq<int>, low: int, high: int) returns (b: seq<int>)
    requires low < high ==> 0 <= low && high < |a|
    ensures SameOutside(a, b, low, high)
    ensures multiset(b) == multiset(a)
    ensures low < high ==> SortedRange(b, low, high + 1)
    decreases high - low
  {
    if low < high {
      var pi;
      b, pi := Partition(a, low, high);
      ghost var b1 := b;
      b := Quicksort(b, low, pi - 1);
      ghost var b2 := b;
      b := Quicksort(b, pi + 1, high);
      SortedAfterBothHalves(b1, b2, b, low, pi, high);
    } else {
      b := a;
    }
  }
}
