/**
  The numerical kernels of the acquisition search: input power, frequency
  shift and circular correlation, each as a loop over the interleaved
  buffers written the way the engine writes it, checked against a
  reference definition in complex arithmetic.
 */
module Correlator {
  import opened ComplexArith

  /**
    The local oscillator: for a Doppler hypothesis f_d (Hz) and sample
    index n, the unit phasor (cos a, sin a) with a = -2 pi f_d n / Fs.
    The trigonometry is not modelled; the model is parametric in it.
   */
  type Oscillator = (int, int) -> Complex

  /** The window frequency-corrected for hypothesis fd: sample n times the oscillator. */
  function ShiftWindow(samples: seq<real>, n: nat, fd: int, osc: Oscillator): (w: seq<real>)
    requires 2 * n <= |samples|
    ensures |w| == 2 * n
    ensures forall m :: 0 <= m < n ==> At(w, m) == Mul(At(samples, m), osc(fd, m))
  {
    if n == 0 then []
    else
      var front := ShiftWindow(samples, n - 1, fd, osc);
      var z := Mul(At(samples, n - 1), osc(fd, n - 1));
      var w := front + [z.re, z.im];
      assert forall m :: 0 <= m < n - 1 ==> At(w, m) == At(front, m);
      w
  }

  /**
    One pass of the frequency-shift loop: sample m mixed with the
    oscillator by the engine's expanded formulas re*cos - im*sin and
    re*sin + im*cos, written to slots 2m and 2m+1 of the working buffer.
   */
  method MixSample(samples: seq<real>, n: nat, fd: int, osc: Oscillator, buf: seq<real>, out: seq<real>, m: nat)
    returns (out': seq<real>)
    requires 2 * n <= |samples| && 2 * n <= |buf| && m < n && |out| == |buf|
    requires forall k :: 0 <= k < 2 * m ==> out[k] == ShiftWindow(samples, n, fd, osc)[k]
    requires forall k :: 2 * n <= k < |buf| ==> out[k] == buf[k]
    ensures |out'| == |buf|
    ensures forall k :: 0 <= k < 2 * (m + 1) ==> out'[k] == ShiftWindow(samples, n, fd, osc)[k]
    ensures forall k :: 2 * n <= k < |buf| ==> out'[k] == buf[k]
  {
    ghost var w := ShiftWindow(samples, n, fd, osc);
    var lo := osc(fd, m);
    var cosVal, sinVal := lo.re, lo.im;
    var re, im := samples[2 * m], samples[2 * m + 1];
    assert At(w, m) == Mul(At(samples, m), lo);
    out' := out[2 * m := re * cosVal - im * sinVal][2 * m + 1 := re * sinVal + im * cosVal];
  }

  /**
    Frequency shift of the first n samples into the working buffer. Only
    the first 2n slots of the working buffer are overwritten.
   */
  method FrequencyShift(samples: seq<real>, n: nat, fd: int, osc: Oscillator, buf: seq<real>)
    returns (out: seq<real>)
    requires 2 * n <= |samples| && 2 * n <= |buf|
    ensures out == ShiftWindow(samples, n, fd, osc) + buf[2 * n..]
  {
    ghost var w := ShiftWindow(samples, n, fd, osc);
    out := buf;
    var m := 0;
    while m < n
      invariant 0 <= m <= n
      invariant |out| == |buf|
      invariant forall k :: 0 <= k < 2 * m ==> out[k] == w[k]
      invariant forall k :: 2 * n <= k < |buf| ==> out[k] == buf[k]
    {
      out := MixSample(samples, n, fd, osc, buf, out, m);
      m := m + 1;
    }
    assert out[2 * n..] == buf[2 * n..];
  }

  /** Mixing with a unit-magnitude oscillator does not change the window's energy. */
  lemma {:induction false} ShiftPreservesEnergy(samples: seq<real>, n: nat, fd: int, osc: Oscillator, m: nat)
    requires 2 * n <= |samples| && m <= n
    requires forall k :: 0 <= k < n ==> NormSq(osc(fd, k)) == 1.0
    ensures EnergyUpTo(ShiftWindow(samples, n, fd, osc), m) == EnergyUpTo(samples, m)
  {
    if m > 0 {
      ShiftPreservesEnergy(samples, n, fd, osc, m - 1);
      NormSqMul(At(samples, m - 1), osc(fd, m - 1));
    }
  }

  /** At 0 Hz the oscillator is cos 0 + j sin 0 = 1, and mixing leaves the window as it was. */
  lemma UnitShift(samples: seq<real>, n: nat, fd: int, osc: Oscillator)
    requires |samples| == 2 * n
    requires forall k :: 0 <= k < n ==> osc(fd, k) == Complex(1.0, 0.0)
    ensures ShiftWindow(samples, n, fd, osc) == samples
  {
    var w := ShiftWindow(samples, n, fd, osc);
    forall j | 0 <= j < 2 * n
      ensures w[j] == samples[j]
    {
      var k := j / 2;
      assert At(w, k) == Mul(At(samples, k), osc(fd, k));
    }
  }

  /** A value in [0, 2n) reduced mod n: unchanged below n, less n from n on. */
  lemma WrapAround(a: int, n: int)
    requires 0 <= a < 2 * n
    ensures a % n == if a < n then a else a - n
  {
    var q, r := a / n, a % n;
    assert a == q * n + r && 0 <= r < n;
    if a < n {
      assert q * n < n;
    }
  }

  /**
    The circular index (m + tau) mod n used by the correlator: it always
    names one of the n complex values, and it is m + tau unless that runs
    past the end, in which case it wraps to the front.
   */
  function CircularIndex(m: int, tau: int, n: int): (k: int)
    requires 0 <= m < n && 0 <= tau < n
    ensures 0 <= k < n
    ensures k == m + tau || k == m + tau - n
    ensures 2 * k + 1 < 2 * n
  {
    WrapAround(m + tau, n);
    (m + tau) % n
  }

  /**
    One step of the correlation sum, written with the expanded products:
    sample times conjugated chip is (sr*cr + si*ci) + j(si*cr - sr*ci).
   */
  lemma CorrelationStep(sh: seq<real>, code: seq<real>, n: nat, tau: int, m: nat)
    requires 2 * n <= |sh| && 2 * n <= |code| && 0 <= tau < n && m < n
    ensures var k := CircularIndex(m, tau, n);
            var sr, si, cr, ci := sh[2 * k], sh[2 * k + 1], code[2 * m], code[2 * m + 1];
            && CorrelationUpTo(sh, code, n, tau, m + 1).re == CorrelationUpTo(sh, code, n, tau, m).re + (sr * cr + si * ci)
            && CorrelationUpTo(sh, code, n, tau, m + 1).im == CorrelationUpTo(sh, code, n, tau, m).im + (si * cr - sr * ci)
  {
    var k := CircularIndex(m, tau, n);
    var sr, si, cr, ci := sh[2 * k], sh[2 * k + 1], code[2 * m], code[2 * m + 1];
    var p := Mul(At(sh, k), Conj(At(code, m)));
    assert p.re == sr * cr - si * (-ci);
    assert si * (-ci) == -(si * ci);
    assert p.im == sr * (-ci) + si * cr;
    assert sr * (-ci) == -(sr * ci);
  }

  /** The correlation sum over the first m code chips, in complex arithmetic. */
  function CorrelationUpTo(sh: seq<real>, code: seq<real>, n: nat, tau: int, m: nat): Complex
    requires 2 * n <= |sh| && 2 * n <= |code| && 0 <= tau < n && m <= n
  {
    if m == 0 then Zero
    else Add(CorrelationUpTo(sh, code, n, tau, m - 1),
             Mul(At(sh, CircularIndex(m - 1, tau, n)), Conj(At(code, m - 1))))
  }

  /** corr(tau) = sum over m of sh[(m + tau) mod n] * conj(code[m]). */
  function Correlation(sh: seq<real>, code: seq<real>, n: nat, tau: int): Complex
    requires 2 * n <= |sh| && 2 * n <= |code| && 0 <= tau < n
  {
    CorrelationUpTo(sh, code, n, tau, n)
  }

  /** The squared magnitude of the correlation at code phase tau. */
  function Magnitude(sh: seq<real>, code: seq<real>, n: nat, tau: int): (r: real)
    requires 2 * n <= |sh| && 2 * n <= |code| && 0 <= tau < n
    ensures r >= 0.0
  {
    NormSq(Correlation(sh, code, n, tau))
  }

  /**
    One pass of the correlator's inner loop: the product of the shifted
    sample at the circular index (m + tau) mod n and the conjugated chip m
    added to the two sums, in the engine's expanded form.
   */
  method AccumulateTerm(sh: seq<real>, code: seq<real>, n: nat, tau: int, m: nat, realSum: real, imagSum: real)
    returns (realSum': real, imagSum': real)
    requires 2 * n <= |sh| && 2 * n <= |code| && 0 <= tau < n && m < n
    requires realSum == CorrelationUpTo(sh, code, n, tau, m).re
    requires imagSum == CorrelationUpTo(sh, code, n, tau, m).im
    ensures realSum' == CorrelationUpTo(sh, code, n, tau, m + 1).re
    ensures imagSum' == CorrelationUpTo(sh, code, n, tau, m + 1).im
  {
    var index := (m + tau) % n;
    var sampleReal, sampleImag := sh[2 * index], sh[2 * index + 1];
    var codeReal, codeImag := code[2 * m], code[2 * m + 1];
    CorrelationStep(sh, code, n, tau, m);
    realSum' := realSum + sampleReal * codeReal + sampleImag * codeImag;
    imagSum' := imagSum + sampleImag * codeReal - sampleReal * codeImag;
  }

  /**
    The correlator's inner loop: real and imaginary sums accumulated with
    the expanded products sr*cr + si*ci and si*cr - sr*ci, which are the
    real and imaginary parts of the reference correlation.
   */
  method Correlate(sh: seq<real>, code: seq<real>, n: nat, tau: int) returns (realSum: real, imagSum: real)
    requires 2 * n <= |sh| && 2 * n <= |code| && 0 <= tau < n
    ensures realSum == Correlation(sh, code, n, tau).re
    ensures imagSum == Correlation(sh, code, n, tau).im
  {
    realSum, imagSum := 0.0, 0.0;
    var m := 0;
    while m < n
      invariant 0 <= m <= n
      invariant realSum == CorrelationUpTo(sh, code, n, tau, m).re
      invariant imagSum == CorrelationUpTo(sh, code, n, tau, m).im
    {
      realSum, imagSum := AccumulateTerm(sh, code, n, tau, m, realSum, imagSum);
      m := m + 1;
    }
  }


  /** Energy of the first m complex values: the sum of re^2 + im^2. */
  function EnergyUpTo(x: seq<real>, m: nat): (e: real)
    requires 2 * m <= |x|
    ensures e >= 0.0
  {
    if m == 0 then 0.0 else EnergyUpTo(x, m - 1) + NormSq(At(x, m - 1))
  }

  /** Mean power of the first n complex samples. */
  function Power(x: seq<real>, n: nat): (p: real)
    requires 1 <= n && 2 * n <= |x|
    ensures p >= 0.0
    ensures p == 0.0 <==> EnergyUpTo(x, n) == 0.0
  {
    EnergyUpTo(x, n) / n as real
  }

  /**
    The input power loop: the mean of re^2 + im^2 over the raw, unshifted
    samples; never negative.
   */
  method InputPower(samples: seq<real>, n: nat) returns (pIn: real)
    requires 1 <= n && 2 * n <= |samples|
    ensures pIn >= 0.0
    ensures pIn == Power(samples, n)
  {
    pIn := 0.0;
    var m := 0;
    while m < n
      invariant 0 <= m <= n
      invariant pIn == EnergyUpTo(samples, m)
    {
      var re, im := samples[2 * m], samples[2 * m + 1];
      pIn := pIn + re * re + im * im;
      m := m + 1;
    }
    pIn := pIn / n as real;
  }
}
