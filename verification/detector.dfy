/**
  The detector of the acquisition search: the strongest correlation over
  the (Doppler hypothesis, code phase) grid, the hypothesis the search
  keeps, and the threshold decision on the normalised peak.
 */
module Detector {
  import opened ComplexArith
  import opened Correlator
  import opened Argmax

  /** Detection threshold on the SNR (0.015f in the engine). */
  const GAMMA: real := 0.015

  /**
    One search problem: the raw samples and the code (interleaved, at
    least 2n slots each), the window length n, the Doppler hypotheses in
    search order, and the local oscillator.
   */
  datatype Problem = Problem(samples: seq<real>, codes: seq<real>, n: nat, freqs: seq<int>, osc: Oscillator)
  {
    predicate Valid() {
      1 <= n && 2 * n <= |samples| && 2 * n <= |codes|
    }

    /** (i, tau) is a grid point: hypothesis index i, code phase tau. */
    predicate InGrid(i: int, tau: int) {
      0 <= i < |freqs| && 0 <= tau < n
    }

    /** Squared correlation magnitude at hypothesis freqs[i], code phase tau. */
    function Mag(i: int, tau: int): (r: real)
      requires Valid() && InGrid(i, tau)
      ensures r >= 0.0
    {
      Magnitude(ShiftWindow(samples, n, freqs[i], osc), codes, n, tau)
    }
  }

  /** The magnitudes of the whole grid as a score table (0 off the grid). */
  function Scores(p: Problem): Table
    requires p.Valid()
  {
    (i, tau) => if p.InGrid(i, tau) then p.Mag(i, tau) else 0.0
  }

  /** The score of a grid point is the squared correlation of its frequency-shifted window. */
  lemma ScoreIsMagnitude(p: Problem, i: int, tau: int, w: seq<real>)
    requires p.Valid() && p.InGrid(i, tau)
    requires w == ShiftWindow(p.samples, p.n, p.freqs[i], p.osc)
    ensures Scores(p)(i, tau) == NormSq(Correlation(w, p.codes, p.n, tau))
  {
  }

  /** S_max after the sweep over every hypothesis and code phase. */
  function PeakOf(p: Problem): (x: real)
    requires p.Valid()
    ensures x >= 0.0
    ensures forall i, tau :: p.InGrid(i, tau) ==> p.Mag(i, tau) <= x
    ensures x == 0.0 || exists i, tau :: p.InGrid(i, tau) && p.Mag(i, tau) == x
  {
    var x := Peak(Scores(p), |p.freqs|, p.n);
    assert forall i, tau :: p.InGrid(i, tau) ==> Scores(p)(i, tau) == p.Mag(i, tau);
    x
  }

  /**
    (tau, fd) is the hypothesis the search records: the code phase and
    Doppler value of the first grid point, in search order, whose
    magnitude is the peak; or (0, 0) when no magnitude exceeds 0.
   */
  ghost predicate IsFirstBest(p: Problem, tau: int, fd: int)
    requires p.Valid()
  {
    && 0 <= tau < p.n
    && (PeakOf(p) == 0.0 ==> tau == 0 && fd == 0)
    && (PeakOf(p) > 0.0 ==>
          exists i :: 0 <= i < |p.freqs| && p.freqs[i] == fd && IsFirstPeak(Scores(p), |p.freqs|, p.n, i, tau))
  }

  /**
    The recorded code phase is one of the n phases searched, and the
    recorded Doppler value is one of the hypotheses, or 0 when nothing
    beat the initial S_max of 0.
   */
  lemma RecordInSearchGrid(p: Problem, tau: int, fd: int)
    requires p.Valid() && IsFirstBest(p, tau, fd)
    ensures 0 <= tau < p.n
    ensures fd == 0 || fd in p.freqs
  {
  }

  /**
    The detection decision SNR > GAMMA with SNR = (S_max / n^2) / P_in,
    multiplied out so that it is defined for P_in = 0 as well.
   */
  predicate Detected(peak: real, pIn: real, n: nat) {
    peak > GAMMA * (n * n) as real * pIn
  }

  /** For positive input power the multiplied-out decision is exactly SNR > GAMMA. */
  lemma DecisionIsSnrTest(peak: real, pIn: real, n: nat)
    requires 1 <= n && pIn > 0.0
    ensures Detected(peak, pIn, n) <==> (peak / (n * n) as real) / pIn > GAMMA
  {
    var d := (n * n) as real;
    assert d >= 1.0 by {
      assert n * n >= 1 * 1;
    }
    var q := pIn * d;
    assert q > 0.0;
    var snr := (peak / d) / pIn;
    assert peak == snr * q;
    assert GAMMA * d * pIn == GAMMA * q;
    assert (snr - GAMMA) * q == snr * q - GAMMA * q;
    if snr > GAMMA {
      assert (snr - GAMMA) * q > 0.0;
    } else {
      assert (GAMMA - snr) * q >= 0.0;
    }
  }

  /** The recorded hypothesis is unique: the search outcome is determined by its inputs. */
  lemma FirstBestUnique(p: Problem, tau1: int, fd1: int, tau2: int, fd2: int)
    requires p.Valid() && IsFirstBest(p, tau1, fd1) && IsFirstBest(p, tau2, fd2)
    ensures tau1 == tau2 && fd1 == fd2
  {
    if PeakOf(p) > 0.0 {
      var i1 :| 0 <= i1 < |p.freqs| && p.freqs[i1] == fd1 && IsFirstPeak(Scores(p), |p.freqs|, p.n, i1, tau1);
      var i2 :| 0 <= i2 < |p.freqs| && p.freqs[i2] == fd2 && IsFirstPeak(Scores(p), |p.freqs|, p.n, i2, tau2);
      FirstPeakUnique(Scores(p), |p.freqs|, p.n, i1, tau1, i2, tau2);
    }
  }

  /**
    Ties go to the earlier grid point: when two grid points both reach the
    peak, the point behind the recorded hypothesis is never the later one.
   */
  lemma TieKeepsFirst(p: Problem, i1: int, t1: int, i2: int, t2: int, tau: int, fd: int)
    requires p.Valid() && p.InGrid(i1, t1) && p.InGrid(i2, t2) && Precedes(i1, t1, i2, t2)
    requires p.Mag(i1, t1) == p.Mag(i2, t2) == PeakOf(p) > 0.0
    requires IsFirstBest(p, tau, fd)
    ensures exists i :: (&& 0 <= i < |p.freqs| && p.freqs[i] == fd
                         && IsFirstPeak(Scores(p), |p.freqs|, p.n, i, tau)
                         && (i, tau) != (i2, t2))
  {
    var i :| 0 <= i < |p.freqs| && p.freqs[i] == fd && IsFirstPeak(Scores(p), |p.freqs|, p.n, i, tau);
    assert Scores(p)(i1, t1) == p.Mag(i1, t1);
    assert (i, tau) != (i2, t2);
  }

  /**
    A flat search surface: when every grid point has the same positive
    magnitude, that value is the peak and the record is the very first
    grid point, code phase 0 of the first hypothesis.
   */
  lemma FlatSurfaceKeepsFirst(p: Problem, v: real)
    requires p.Valid() && 1 <= |p.freqs| && v > 0.0
    requires forall i, tau :: p.InGrid(i, tau) ==> p.Mag(i, tau) == v
    ensures PeakOf(p) == v
    ensures IsFirstBest(p, 0, p.freqs[0])
    ensures forall tau, fd :: IsFirstBest(p, tau, fd) ==> tau == 0 && fd == p.freqs[0]
  {
    var s := Scores(p);
    assert forall i, tau :: InGrid(|p.freqs|, p.n, i, tau) ==> s(i, tau) == v;
    ConstantTablePeak(s, |p.freqs|, p.n, v);
    assert IsFirstBest(p, 0, p.freqs[0]);
    forall tau, fd | IsFirstBest(p, tau, fd)
      ensures tau == 0 && fd == p.freqs[0]
    {
      FirstBestUnique(p, tau, fd, 0, p.freqs[0]);
    }
  }

  /** Correlating an all-zero shifted window gives zero for every prefix. */
  lemma {:induction false} ZeroCorrelation(sh: seq<real>, code: seq<real>, n: nat, tau: int, m: nat)
    requires 2 * n <= |sh| && 2 * n <= |code| && 0 <= tau < n && m <= n
    requires forall k :: 0 <= k < 2 * n ==> sh[k] == 0.0
    ensures CorrelationUpTo(sh, code, n, tau, m) == Zero
  {
    if m > 0 {
      ZeroCorrelation(sh, code, n, tau, m - 1);
      var k := CircularIndex(m - 1, tau, n);
      assert At(sh, k) == Zero;
    }
  }

  /** An all-zero window has zero energy. */
  lemma {:induction false} ZeroEnergy(x: seq<real>, m: nat)
    requires 2 * m <= |x|
    requires forall k :: 0 <= k < 2 * m ==> x[k] == 0.0
    ensures EnergyUpTo(x, m) == 0.0
  {
    if m > 0 {
      ZeroEnergy(x, m - 1);
      assert At(x, m - 1) == Zero;
    }
  }

  /**
    Zero signal: when every sample is 0, the input power and the peak are
    0, nothing is detected, and the recorded hypothesis is (0, 0).
   */
  lemma ZeroSignal(p: Problem)
    requires p.Valid()
    requires forall k :: 0 <= k < 2 * p.n ==> p.samples[k] == 0.0
    ensures Power(p.samples, p.n) == 0.0
    ensures PeakOf(p) == 0.0
    ensures !Detected(PeakOf(p), Power(p.samples, p.n), p.n)
    ensures forall tau, fd :: IsFirstBest(p, tau, fd) <==> tau == 0 && fd == 0
  {
    ZeroEnergy(p.samples, p.n);
    forall i, tau | p.InGrid(i, tau)
      ensures p.Mag(i, tau) == 0.0
    {
      var w := ShiftWindow(p.samples, p.n, p.freqs[i], p.osc);
      forall k | 0 <= k < 2 * p.n
        ensures w[k] == 0.0
      {
        var m := k / 2;
        assert At(p.samples, m) == Zero;
        assert At(w, m) == Zero;
        assert k == 2 * m || k == 2 * m + 1;
      }
      ZeroCorrelation(w, p.codes, p.n, tau, p.n);
    }
  }
}
