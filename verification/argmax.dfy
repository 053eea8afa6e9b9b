/**
  The running maximum of the acquisition sweep, over an abstract score
  table: rows are Doppler hypotheses in the order given, columns are code
  phases, visited row by row with a strict `>` update starting from 0.
 */
module Argmax {

  /** Score of grid point (row, column). */
  type Table = (int, int) -> real

  predicate InGrid(rows: nat, cols: nat, i: int, j: int) {
    0 <= i < rows && 0 <= j < cols
  }

  /** Visiting order: row-major. */
  predicate Precedes(i: int, j: int, i': int, j': int) {
    i < i' || (i == i' && j < j')
  }

  /** (i, j) is a position of the sweep: exactly the points before it have been visited. */
  predicate InSweep(rows: nat, cols: nat, i: int, j: int) {
    0 <= i <= rows && 0 <= j <= cols && (i == rows ==> j == 0)
  }

  /**
    S_max once the sweep has reached (i, j): never negative, at least every
    score visited so far, and, unless still 0, one of those scores.
   */
  function PeakBefore(s: Table, rows: nat, cols: nat, i: int, j: int): (x: real)
    requires InSweep(rows, cols, i, j)
    ensures x >= 0.0
    ensures forall i', j' :: InGrid(rows, cols, i', j') && Precedes(i', j', i, j) ==> s(i', j') <= x
    ensures x == 0.0 || exists i', j' :: InGrid(rows, cols, i', j') && Precedes(i', j', i, j) && s(i', j') == x
    decreases i, j
  {
    if j > 0 then
      var prev := PeakBefore(s, rows, cols, i, j - 1);
      if s(i, j - 1) > prev then s(i, j - 1) else prev
    else if i > 0 then PeakBefore(s, rows, cols, i - 1, cols)
    else 0.0
  }

  /** S_max after the whole sweep. */
  function Peak(s: Table, rows: nat, cols: nat): (x: real)
    ensures x >= 0.0
    ensures forall i, j :: InGrid(rows, cols, i, j) ==> s(i, j) <= x
    ensures x == 0.0 || exists i, j :: InGrid(rows, cols, i, j) && s(i, j) == x
  {
    PeakBefore(s, rows, cols, rows, 0)
  }

  /** (i, j) is the first point, in visiting order, whose score is the peak. */
  ghost predicate IsFirstPeak(s: Table, rows: nat, cols: nat, i: int, j: int) {
    && InGrid(rows, cols, i, j)
    && s(i, j) == Peak(s, rows, cols)
    && forall i', j' :: InGrid(rows, cols, i', j') && Precedes(i', j', i, j) ==> s(i', j') < Peak(s, rows, cols)
  }

  /** There is only one first peak. */
  lemma FirstPeakUnique(s: Table, rows: nat, cols: nat, i1: int, j1: int, i2: int, j2: int)
    requires IsFirstPeak(s, rows, cols, i1, j1) && IsFirstPeak(s, rows, cols, i2, j2)
    ensures i1 == i2 && j1 == j2
  {
    assert !Precedes(i1, j1, i2, j2);
    assert !Precedes(i2, j2, i1, j1);
  }

  /**
    The record kept by the sweep once it has reached (i, j): S_max is at
    least every score visited so far, and either it is still 0 with the
    position (bi, bj) at (0, 0), or (bi, bj) is a visited point scoring
    S_max with every point visited before it scoring strictly less.
   */
  ghost predicate BestSoFar(s: Table, rows: nat, cols: nat, i: int, j: int, sMax: real, bi: int, bj: int) {
    && sMax >= 0.0
    && (forall i', j' :: InGrid(rows, cols, i', j') && Precedes(i', j', i, j) ==> s(i', j') <= sMax)
    && (sMax == 0.0 ==> bi == 0 && bj == 0)
    && (sMax > 0.0 ==>
          && InGrid(rows, cols, bi, bj) && Precedes(bi, bj, i, j) && s(bi, bj) == sMax
          && forall i', j' :: InGrid(rows, cols, i', j') && Precedes(i', j', bi, bj) ==> s(i', j') < sMax)
  }

  /** Before the sweep: S_max 0 and the record (0, 0). */
  lemma SweepStarts(s: Table, rows: nat, cols: nat)
    ensures BestSoFar(s, rows, cols, 0, 0, 0.0, 0, 0)
  {
  }

  /** The strict `>` update keeps the record correct when the sweep visits (i, j). */
  lemma VisitKeepsBest(s: Table, rows: nat, cols: nat, i: int, j: int, sMax: real, bi: int, bj: int)
    requires InGrid(rows, cols, i, j) && BestSoFar(s, rows, cols, i, j, sMax, bi, bj)
    ensures s(i, j) > sMax ==> BestSoFar(s, rows, cols, i, j + 1, s(i, j), i, j)
    ensures !(s(i, j) > sMax) ==> BestSoFar(s, rows, cols, i, j + 1, sMax, bi, bj)
  {
    if s(i, j) > sMax {
      forall i', j' | InGrid(rows, cols, i', j') && Precedes(i', j', i, j)
        ensures s(i', j') < s(i, j)
      {
        assert s(i', j') <= sMax;
      }
    }
  }

  /** Moving from the end of one row to the start of the next changes nothing. */
  lemma NextRowKeepsBest(s: Table, rows: nat, cols: nat, i: int, sMax: real, bi: int, bj: int)
    requires 0 <= i < rows && BestSoFar(s, rows, cols, i, cols, sMax, bi, bj)
    ensures BestSoFar(s, rows, cols, i + 1, 0, sMax, bi, bj)
  {
  }

  /**
    At the end of the sweep the record agrees with the reference: S_max is
    the peak, and the position is the first peak, or (0, 0) with peak 0.
   */
  lemma SweepEndsAtFirstPeak(s: Table, rows: nat, cols: nat, sMax: real, bi: int, bj: int)
    requires BestSoFar(s, rows, cols, rows, 0, sMax, bi, bj)
    ensures sMax == Peak(s, rows, cols)
    ensures sMax == 0.0 ==> bi == 0 && bj == 0
    ensures sMax > 0.0 ==> IsFirstPeak(s, rows, cols, bi, bj)
  {
    var x := Peak(s, rows, cols);
    if x != 0.0 {
      var a, b :| InGrid(rows, cols, a, b) && s(a, b) == x;
      assert s(a, b) <= sMax;
    }
    if sMax > 0.0 {
      assert s(bi, bj) <= x;
    }
  }

  /** When every grid point scores the same positive v, the peak is v and the first point holds it. */
  lemma ConstantTablePeak(s: Table, rows: nat, cols: nat, v: real)
    requires 1 <= rows && 1 <= cols && v > 0.0
    requires forall i, j :: InGrid(rows, cols, i, j) ==> s(i, j) == v
    ensures Peak(s, rows, cols) == v
    ensures IsFirstPeak(s, rows, cols, 0, 0)
  {
    assert s(0, 0) == v;
  }
}
