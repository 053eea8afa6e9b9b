/**
  A worked four-chip example of the acquisition search: code
  (1, -1, 1, -1), samples equal to the code advanced by one chip, i.e.
  (-1, 1, -1, 1), all imaginary parts 0, and a single hypothesis of 0 Hz
  at which the oscillator is 1. Because the code alternates, every code
  phase correlates equally strongly, and the strict comparison keeps
  code phase 0.
 */
module AlternatingExample {
  import opened ComplexArith
  import opened Correlator
  import opened Argmax
  import opened Detector

  const ExampleSamples: seq<real> := [-1.0, 0.0, 1.0, 0.0, -1.0, 0.0, 1.0, 0.0]
  const ExampleCode: seq<real> := [1.0, 0.0, -1.0, 0.0, 1.0, 0.0, -1.0, 0.0]

  /** The oscillator value at 0 Hz, cos 0 + j sin 0, used for every sample. */
  function UnitOscillator(fd: int, m: int): Complex {
    Complex(1.0, 0.0)
  }

  function Example(): (p: Problem)
    ensures p.Valid()
  {
    Problem(ExampleSamples, ExampleCode, 4, [0], UnitOscillator)
  }

  /** Sign of chip k of the code: +1 at even k, -1 at odd k. */
  function ChipSign(k: int): real {
    if k % 2 == 0 then 1.0 else -1.0
  }

  /**
    The pattern of the example: window length 4, a single hypothesis of
    0 Hz at which the oscillator is 1, a code of alternating signs, and
    samples of the opposite signs (the code advanced by one chip).
   */
  ghost predicate IsAlternating(p: Problem) {
    && p.Valid() && p.n == 4 && p.freqs == [0] && |p.samples| == 8
    && (forall m :: 0 <= m < 4 ==> p.osc(0, m) == Complex(1.0, 0.0))
    && (forall k :: 0 <= k < 4 ==> At(p.codes, k) == Complex(ChipSign(k), 0.0))
    && (forall k :: 0 <= k < 4 ==> At(p.samples, k) == Complex(-ChipSign(k), 0.0))
  }

  /** The literal sequences above follow the pattern. */
  lemma ExampleIsAlternating()
    ensures IsAlternating(Example())
  {
    forall k | 0 <= k < 4
      ensures At(ExampleCode, k) == Complex(ChipSign(k), 0.0)
      ensures At(ExampleSamples, k) == Complex(-ChipSign(k), 0.0)
    {
    }
  }

  /** Shifting the alternating code by tau flips the sign of every chip product by tau's parity. */
  lemma ChipSignProduct(m: int, tau: int)
    requires 0 <= m < 4 && 0 <= tau < 4
    ensures ChipSign(CircularIndex(m, tau, 4)) * ChipSign(m) == ChipSign(tau)
  {
  }

  /** Each term of the correlation at code phase tau is -1 for even tau and +1 for odd tau. */
  lemma AlternatingTerm(sh: seq<real>, code: seq<real>, tau: int, m: int)
    requires 8 <= |sh| && 8 <= |code| && 0 <= tau < 4 && 0 <= m < 4
    requires forall k :: 0 <= k < 4 ==> At(code, k) == Complex(ChipSign(k), 0.0)
    requires forall k :: 0 <= k < 4 ==> At(sh, k) == Complex(-ChipSign(k), 0.0)
    ensures Mul(At(sh, CircularIndex(m, tau, 4)), Conj(At(code, m))) == Complex(-ChipSign(tau), 0.0)
  {
    var k := CircularIndex(m, tau, 4);
    ChipSignProduct(m, tau);
    var a, b := ChipSign(k), ChipSign(m);
    assert Mul(Complex(-a, 0.0), Conj(Complex(b, 0.0))) == Complex(-(a * b), 0.0);
  }

  /**
    Every term of the correlation at code phase tau has the same value,
    so the sum over the first m chips is m times it.
   */
  lemma {:induction false} AlternatingCorrelation(sh: seq<real>, code: seq<real>, tau: int, m: nat)
    requires 8 <= |sh| && 8 <= |code| && 0 <= tau < 4 && m <= 4
    requires forall k :: 0 <= k < 4 ==> At(code, k) == Complex(ChipSign(k), 0.0)
    requires forall k :: 0 <= k < 4 ==> At(sh, k) == Complex(-ChipSign(k), 0.0)
    ensures CorrelationUpTo(sh, code, 4, tau, m) == Complex(-(m as real) * ChipSign(tau), 0.0)
  {
    if m > 0 {
      AlternatingCorrelation(sh, code, tau, m - 1);
      AlternatingTerm(sh, code, tau, m - 1);
    }
  }

  /** Every code phase correlates with squared magnitude 16. */
  lemma AlternatingMagnitude(sh: seq<real>, code: seq<real>, tau: int)
    requires 8 <= |sh| && 8 <= |code| && 0 <= tau < 4
    requires forall k :: 0 <= k < 4 ==> At(code, k) == Complex(ChipSign(k), 0.0)
    requires forall k :: 0 <= k < 4 ==> At(sh, k) == Complex(-ChipSign(k), 0.0)
    ensures Magnitude(sh, code, 4, tau) == 16.0
  {
    AlternatingCorrelation(sh, code, tau, 4);
    var c := Correlation(sh, code, 4, tau);
    if tau % 2 == 0 {
      assert c == Complex(-4.0, 0.0);
    } else {
      assert c == Complex(4.0, 0.0);
    }
  }

  /** A window of alternating signs has energy 1 per value. */
  lemma {:induction false} AlternatingEnergy(sh: seq<real>, m: nat)
    requires 8 <= |sh| && m <= 4
    requires forall k :: 0 <= k < 4 ==> At(sh, k) == Complex(-ChipSign(k), 0.0)
    ensures EnergyUpTo(sh, m) == m as real
  {
    if m > 0 {
      AlternatingEnergy(sh, m - 1);
      var s := ChipSign(m - 1);
      assert s * s == 1.0;
    }
  }

  /**
    Every grid point of the example, all in row 0, has magnitude 16: the
    hypothesis is 0 Hz, so the shifted window is the samples themselves,
    and every code phase of the alternating code correlates to 16.
   */
  lemma PointMagnitude(p: Problem, i: int, tau: int)
    requires IsAlternating(p) && p.InGrid(i, tau)
    ensures p.Mag(i, tau) == 16.0
  {
    AlternatingMagnitude(p.samples, p.codes, tau);
    UnitShift(p.samples, p.n, p.freqs[i], p.osc);
  }

  /** Every grid point has magnitude 16, so the peak is 16 and the record stays at (0, 0). */
  lemma AlternatingPeak(p: Problem)
    requires IsAlternating(p)
    ensures PeakOf(p) == 16.0
    ensures forall tau, fd :: IsFirstBest(p, tau, fd) <==> tau == 0 && fd == 0
  {
    forall i, tau | p.InGrid(i, tau)
      ensures p.Mag(i, tau) == 16.0
    {
      PointMagnitude(p, i, tau);
    }
    FlatSurfaceKeepsFirst(p, 16.0);
  }

  lemma AlternatingPower(p: Problem)
    requires IsAlternating(p)
    ensures Power(p.samples, p.n) == 1.0
  {
    AlternatingEnergy(p.samples, 4);
  }

  /**
    The example worked through the search: the input power is 1, the peak
    is 16, the SNR test passes (16/16/1 = 1 > GAMMA), and because every
    code phase ties at 16 the strict comparison keeps the first, code
    phase 0, and not the one-chip alignment at code phase 1.
   */
  lemma AlternatingCodeKeepsPhaseZero(p: Problem)
    requires IsAlternating(p)
    ensures Power(p.samples, p.n) == 1.0
    ensures PeakOf(p) == 16.0
    ensures Detected(PeakOf(p), Power(p.samples, p.n), p.n)
    ensures IsFirstBest(p, 0, 0)
    ensures !IsFirstBest(p, 1, 0)
  {
    AlternatingPower(p);
    AlternatingPeak(p);
  }
}
