/**
  The range finder's median filter: a ring of the last five readings, the
  slot the next reading overwrites, and the filtered reading, which is the
  middle value of a sorted copy of the ring.
 */
module MedianFilter {
  import opened Sorting

  const WINDOW_SIZE: nat := 5

  datatype Filter = Filter(readings: seq<int>, readIndex: int, filtered: int)
  {
    /** Five slots and a write position inside the ring. */
    predicate Valid() {
      |readings| == WINDOW_SIZE && 0 <= readIndex < WINDOW_SIZE
    }
  }

  /** The filter at power-up: C zero-initialises the globals. */
  const Initial: Filter := Filter([0, 0, 0, 0, 0], 0, 0)

  /** How many values of s satisfy p. */
  function Count(s: seq<int>, p: int -> bool): (c: nat)
    ensures c <= |s|
  {
    if |s| == 0 then 0 else Count(s[..|s| - 1], p) + (if p(s[|s| - 1]) then 1 else 0)
  }

  function AtMost(m: int): int -> bool {
    x => x <= m
  }

  function AtLeast(m: int): int -> bool {
    x => x >= m
  }

  /**
    m is a median of w: a value of w with more than half of w at most m
    and more than half of w at least m. The order of w plays no part.
   */
  ghost predicate IsMedian(m: int, w: seq<int>) {
    m in w && Count(w, AtMost(m)) > |w| / 2 && Count(w, AtLeast(m)) > |w| / 2
  }

  lemma {:induction false} CountAppend(a: seq<int>, b: seq<int>, p: int -> bool)
    ensures Count(a + b, p) == Count(a, p) + Count(b, p)
    decreases |b|
  {
    if |b| == 0 {
      assert a + b == a;
    } else {
      assert (a + b)[..|a + b| - 1] == a + b[..|b| - 1];
      assert (a + b)[|a + b| - 1] == b[|b| - 1];
      CountAppend(a, b[..|b| - 1], p);
    }
  }

  /** Counting ignores order: it depends only on the multiset of values. */
  lemma {:induction false} CountPermutation(a: seq<int>, b: seq<int>, p: int -> bool)
    requires multiset(a) == multiset(b)
    ensures Count(a, p) == Count(b, p)
    decreases |a|
  {
    if |a| > 0 {
      var x := a[|a| - 1];
      assert x in multiset(b);
      var j :| 0 <= j < |b| && b[j] == x;
      var b' := b[..j] + b[j + 1..];
      assert b == b[..j] + [x] + b[j + 1..];
      assert a == a[..|a| - 1] + [x];
      assert multiset(b) == multiset(b') + multiset{x} by {
        assert b == b[..j] + [x] + b[j + 1..];
      }
      assert multiset(a) == multiset(a[..|a| - 1]) + multiset{x};
      forall y
        ensures multiset(a[..|a| - 1])[y] == multiset(b')[y]
      {
        assert multiset(a)[y] == multiset(b)[y];
      }
      assert multiset(a[..|a| - 1]) == multiset(b');
      CountPermutation(a[..|a| - 1], b', p);
      CountAppend(b[..j] + [x], b[j + 1..], p);
      CountAppend(b[..j], [x], p);
      CountAppend(b[..j], b[j + 1..], p);
      assert Count([x], p) == Count(a[..|a| - 1] + [x], p) - Count(a[..|a| - 1], p) by {
        CountAppend(a[..|a| - 1], [x], p);
      }
    }
  }

  /** Values satisfying two disjoint tests are counted at most once between them. */
  lemma {:induction false} CountDisjoint(s: seq<int>, p: int -> bool, q: int -> bool)
    requires forall x :: !(p(x) && q(x))
    ensures Count(s, p) + Count(s, q) <= |s|
  {
    if |s| > 0 {
      CountDisjoint(s[..|s| - 1], p, q);
    }
  }

  /** If the first j values all pass p, at least j values are counted. */
  lemma {:induction false} CountPrefix(s: seq<int>, j: int, p: int -> bool)
    requires 0 <= j <= |s|
    requires forall i :: 0 <= i < j ==> p(s[i])
    ensures Count(s, p) >= j
  {
    if |s| > 0 {
      var front := s[..|s| - 1];
      if j == |s| {
        CountPrefix(front, j - 1, p);
        assert p(s[|s| - 1]);
      } else {
        CountPrefix(front, j, p);
      }
    }
  }

  /** If the values from position j on all pass p, at least |s| - j values are counted. */
  lemma {:induction false} CountSuffix(s: seq<int>, j: int, p: int -> bool)
    requires 0 <= j <= |s|
    requires forall i :: j <= i < |s| ==> p(s[i])
    ensures Count(s, p) >= |s| - j
  {
    if j < |s| {
      CountSuffix(s[..|s| - 1], j, p);
      assert p(s[|s| - 1]);
    }
  }

  /** In an ascending sequence the values up to position k are all at most s[k]. */
  lemma SortedCountAtMost(s: seq<int>, k: int)
    requires 0 <= k < |s| && SortedRange(s, 0, |s|)
    ensures Count(s, AtMost(s[k])) >= k + 1
  {
    CountPrefix(s, k + 1, AtMost(s[k]));
  }

  /** In an ascending sequence the values from position k on are all at least s[k]. */
  lemma SortedCountAtLeast(s: seq<int>, k: int)
    requires 0 <= k < |s| && SortedRange(s, 0, |s|)
    ensures Count(s, AtLeast(s[k])) >= |s| - k
  {
    CountSuffix(s, k, AtLeast(s[k]));
  }

  /** The middle value of an ascending sequence of odd length is its median. */
  lemma MiddleIsMedian(s: seq<int>)
    requires |s| % 2 == 1 && SortedRange(s, 0, |s|)
    ensures IsMedian(s[|s| / 2], s)
  {
    SortedCountAtMost(s, |s| / 2);
    SortedCountAtLeast(s, |s| / 2);
  }

  /** An odd-length window has only one median, whatever the order of its values. */
  lemma MedianUnique(w: seq<int>, m1: int, m2: int)
    requires |w| % 2 == 1 && IsMedian(m1, w) && IsMedian(m2, w)
    ensures m1 == m2
  {
    if m1 < m2 {
      CountDisjoint(w, AtMost(m1), AtLeast(m2));
    } else if m2 < m1 {
      CountDisjoint(w, AtMost(m2), AtLeast(m1));
    }
  }

  /** Medians depend on the values only: a rearranged window has the same median. */
  lemma MedianPermutation(m: int, v: seq<int>, w: seq<int>)
    requires multiset(v) == multiset(w) && IsMedian(m, v)
    ensures IsMedian(m, w)
  {
    CountPermutation(v, w, AtMost(m));
    CountPermutation(v, w, AtLeast(m));
    assert m in multiset(v);
  }

  /** At power-up the filtered reading 0 is the median of the all-zero ring. */
  lemma InitialIsMedian()
    ensures Initial.Valid() && IsMedian(Initial.filtered, Initial.readings)
  {
    MiddleIsMedian(Initial.readings);
  }

  /**
    Adds a reading: it overwrites the slot at readIndex, which then moves
    on by one around the ring, and the filtered reading becomes the median
    of the five readings now held. The ring itself is not reordered.
   */
  method AddReading(f: Filter, reading: int) returns (g: Filter)
    requires f.Valid()
    ensures g.Valid()
    ensures g.readings == f.readings[f.readIndex := reading]
    ensures g.readIndex == (f.readIndex + 1) % WINDOW_SIZE
    ensures IsMedian(g.filtered, g.readings)
  {
    var readings := f.readings[f.readIndex := reading];
    var readIndex := (f.readIndex + 1) % WINDOW_SIZE;

    var temp := [];
    var i := 0;
    while i < WINDOW_SIZE
      invariant 0 <= i <= WINDOW_SIZE
      invariant temp == readings[..i]
    {
      temp := temp + [readings[i]];
      i := i + 1;
    }
    assert temp == readings;

    temp := Quicksort(temp, 0, WINDOW_SIZE - 1);
    MiddleIsMedian(temp);
    MedianPermutation(temp[WINDOW_SIZE / 2], temp, readings);
    g := Filter(readings, readIndex, temp[WINDOW_SIZE / 2]);
  }
}
