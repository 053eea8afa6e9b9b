/**
  The acquisition engine's session: two input buffers filled one complex
  value at a time, a working buffer for the frequency-shifted window
  (absent when its allocation failed), and the code phase and Doppler
  frequency of the last search.
 */
module Acquisition {
  import opened ComplexArith
  import opened Ingestion
  import opened Correlator
  import opened Argmax
  import opened Detector

  /** An optional value; None stands for a null pointer. */
  datatype Option<T> = None | Some(value: T)

  /** Window length N: the engine searches the first 1000 complex samples. */
  const N: nat := 1000

  datatype Session = Session(
    samples: Buffer,
    codes: Buffer,
    shifted: Option<seq<real>>,
    codePhase: int,
    dopplerFrequency: int)

  /**
    Stores one complex sample at the sample cursor and advances it by two
    slots; the code buffer, the working buffer and the results are not
    touched.
   */
  function EnterSample(a: Session, re: real, im: real): (b: Session)
    requires HasRoom(a.samples, 1)
    ensures b.codes == a.codes && b.shifted == a.shifted
    ensures b.codePhase == a.codePhase && b.dopplerFrequency == a.dopplerFrequency
    ensures |b.samples.data| == |a.samples.data| && b.samples.count == a.samples.count + 2
    ensures b.samples.data[a.samples.count] == re && b.samples.data[a.samples.count + 1] == im
    ensures forall k :: 0 <= k < |a.samples.data| && k != a.samples.count && k != a.samples.count + 1 ==>
              b.samples.data[k] == a.samples.data[k]
  {
    a.(samples := Append(a.samples, re, im))
  }

  /** The same for one complex code chip and the code buffer. */
  function EnterCode(a: Session, re: real, im: real): (b: Session)
    requires HasRoom(a.codes, 1)
    ensures b.samples == a.samples && b.shifted == a.shifted
    ensures b.codePhase == a.codePhase && b.dopplerFrequency == a.dopplerFrequency
    ensures |b.codes.data| == |a.codes.data| && b.codes.count == a.codes.count + 2
    ensures b.codes.data[a.codes.count] == re && b.codes.data[a.codes.count + 1] == im
    ensures forall k :: 0 <= k < |a.codes.data| && k != a.codes.count && k != a.codes.count + 1 ==>
              b.codes.data[k] == a.codes.data[k]
  {
    a.(codes := Append(a.codes, re, im))
  }

  /** Enters the values of zs as samples, in order; nothing but the sample buffer changes. */
  function EnterSamples(a: Session, zs: seq<Complex>): (b: Session)
    requires HasRoom(a.samples, |zs|)
    ensures b.codes == a.codes && b.shifted == a.shifted
    ensures b.codePhase == a.codePhase && b.dopplerFrequency == a.dopplerFrequency
    decreases |zs|
  {
    if |zs| == 0 then a else EnterSamples(EnterSample(a, zs[0].re, zs[0].im), zs[1..])
  }

  /** Enters the values of zs as code chips, in order; nothing but the code buffer changes. */
  function EnterCodes(a: Session, zs: seq<Complex>): (b: Session)
    requires HasRoom(a.codes, |zs|)
    ensures b.samples == a.samples && b.shifted == a.shifted
    ensures b.codePhase == a.codePhase && b.dopplerFrequency == a.dopplerFrequency
    decreases |zs|
  {
    if |zs| == 0 then a else EnterCodes(EnterCode(a, zs[0].re, zs[0].im), zs[1..])
  }

  /** Entering samples one by one is appending them to the sample buffer, and only that. */
  lemma {:induction false} EnterSamplesAppends(a: Session, zs: seq<Complex>)
    requires HasRoom(a.samples, |zs|)
    ensures EnterSamples(a, zs) == a.(samples := AppendAll(a.samples, zs))
    decreases |zs|
  {
    if |zs| > 0 {
      EnterSamplesAppends(EnterSample(a, zs[0].re, zs[0].im), zs[1..]);
    }
  }

  /** Entering code chips one by one is appending them to the code buffer, and only that. */
  lemma {:induction false} EnterCodesAppends(a: Session, zs: seq<Complex>)
    requires HasRoom(a.codes, |zs|)
    ensures EnterCodes(a, zs) == a.(codes := AppendAll(a.codes, zs))
    decreases |zs|
  {
    if |zs| > 0 {
      EnterCodesAppends(EnterCode(a, zs[0].re, zs[0].im), zs[1..]);
    }
  }

  /**
    Entering a sample and entering a code chip touch different buffers, so
    their order does not matter.
   */
  lemma EnterSampleCodeCommute(a: Session, sr: real, si: real, cr: real, ci: real)
    requires HasRoom(a.samples, 1) && HasRoom(a.codes, 1)
    ensures EnterCode(EnterSample(a, sr, si), cr, ci) == EnterSample(EnterCode(a, cr, ci), sr, si)
  {
  }

  /**
    A session whose buffers start empty, fed all the samples xs and then
    the code cs, holds sample k and chip k as complex value k of its
    buffers.
   */
  lemma EnteredWindow(a: Session, xs: seq<Complex>, cs: seq<Complex>)
    requires a.samples.count == 0 && HasRoom(a.samples, |xs|)
    requires a.codes.count == 0 && HasRoom(a.codes, |cs|)
    ensures var b := EnterCodes(EnterSamples(a, xs), cs);
            && |b.samples.data| == |a.samples.data| && |b.codes.data| == |a.codes.data|
            && (forall k :: 0 <= k < |xs| ==> At(b.samples.data, k) == xs[k])
            && (forall k :: 0 <= k < |cs| ==> At(b.codes.data, k) == cs[k])
  {
    EnterSamplesAppends(a, xs);
    var a' := EnterSamples(a, xs);
    EnterCodesAppends(a', cs);
    FillWindow(a.samples, xs);
    FillWindow(a.codes, cs);
  }

  /** The search problem a session poses for window length n. */
  function ProblemOf(a: Session, n: nat, freqs: seq<int>, osc: Oscillator): Problem {
    Problem(a.samples.data, a.codes.data, n, freqs, osc)
  }

  /** What the engine needs before it reads its buffers: the first 2n slots of each exist. */
  predicate Ready(a: Session, n: nat) {
    a.shifted.Some? ==> 2 * n <= |a.samples.data| && 2 * n <= |a.codes.data| && 2 * n <= |a.shifted.value|
  }

  /** The record the sweep keeps beside S_max: the Doppler value of its grid point, 0 until S_max grows. */
  ghost predicate Recorded(p: Problem, sMax: real, bestI: int, bestDoppler: int)
    requires p.Valid()
  {
    && (sMax > 0.0 ==> 0 <= bestI < |p.freqs| && bestDoppler == p.freqs[bestI])
    && (!(sMax > 0.0) ==> bestDoppler == 0)
  }

  /**
    The magnitude the engine computes at code phase tau, real_sum^2 +
    imag_sum^2 from the correlator loop, is the score of grid point
    (i, tau).
   */
  method PhaseMagnitude(p: Problem, i: int, w: seq<real>, tau: int) returns (magnitude: real)
    requires p.Valid() && p.InGrid(i, tau)
    requires w == ShiftWindow(p.samples, p.n, p.freqs[i], p.osc)
    ensures magnitude == Scores(p)(i, tau)
  {
    var realSum, imagSum := Correlate(w, p.codes, p.n, tau);
    magnitude := realSum * realSum + imagSum * imagSum;
    ScoreIsMagnitude(p, i, tau, w);
    assert Complex(realSum, imagSum) == Correlation(w, p.codes, p.n, tau);
  }

  /**
    One grid point (i, tau): its magnitude, and the update that a
    magnitude strictly above S_max replaces S_max and the record, while
    anything else leaves them.
   */
  method Visit(p: Problem, i: int, w: seq<real>, tau: int, sMax: real, ghost bestI: int, bestCodePhase: int, bestDoppler: int)
    returns (sMax': real, ghost bestI': int, bestCodePhase': int, bestDoppler': int)
    requires p.Valid() && p.InGrid(i, tau)
    requires w == ShiftWindow(p.samples, p.n, p.freqs[i], p.osc)
    requires BestSoFar(Scores(p), |p.freqs|, p.n, i, tau, sMax, bestI, bestCodePhase)
    requires Recorded(p, sMax, bestI, bestDoppler)
    ensures BestSoFar(Scores(p), |p.freqs|, p.n, i, tau + 1, sMax', bestI', bestCodePhase')
    ensures Recorded(p, sMax', bestI', bestDoppler')
  {
    var magnitude := PhaseMagnitude(p, i, w, tau);
    VisitKeepsBest(Scores(p), |p.freqs|, p.n, i, tau, sMax, bestI, bestCodePhase);
    if magnitude > sMax {
      sMax', bestI', bestCodePhase', bestDoppler' := magnitude, i, tau, p.freqs[i];
    } else {
      sMax', bestI', bestCodePhase', bestDoppler' := sMax, bestI, bestCodePhase, bestDoppler;
    }
  }

  /**
    The code-phase sweep for hypothesis i: the squared correlation of the
    shifted window at every code phase, in order, each compared with
    S_max by the strict `>` update.
   */
  method ScanHypothesis(p: Problem, i: int, w: seq<real>, sMax: real, ghost bestI: int, bestCodePhase: int, bestDoppler: int)
    returns (sMax': real, ghost bestI': int, bestCodePhase': int, bestDoppler': int)
    requires p.Valid() && 0 <= i < |p.freqs|
    requires w == ShiftWindow(p.samples, p.n, p.freqs[i], p.osc)
    requires BestSoFar(Scores(p), |p.freqs|, p.n, i, 0, sMax, bestI, bestCodePhase)
    requires Recorded(p, sMax, bestI, bestDoppler)
    ensures BestSoFar(Scores(p), |p.freqs|, p.n, i + 1, 0, sMax', bestI', bestCodePhase')
    ensures Recorded(p, sMax', bestI', bestDoppler')
  {
    ghost var s := Scores(p);
    sMax', bestI', bestCodePhase', bestDoppler' := sMax, bestI, bestCodePhase, bestDoppler;
    var tau := 0;
    while tau < p.n
      invariant 0 <= tau <= p.n
      invariant BestSoFar(s, |p.freqs|, p.n, i, tau, sMax', bestI', bestCodePhase')
      invariant Recorded(p, sMax', bestI', bestDoppler')
    {
      sMax', bestI', bestCodePhase', bestDoppler' := Visit(p, i, w, tau, sMax', bestI', bestCodePhase', bestDoppler');
      tau := tau + 1;
    }
    NextRowKeepsBest(s, |p.freqs|, p.n, i, sMax', bestI', bestCodePhase');
  }

  /**
    The threshold decision on S_max and P_in: SNR = (S_max / n^2) / P_in
    compared with GAMMA. For P_in = 0 the float division gives +inf when
    S_max > 0, which passes, and NaN when S_max = 0, which does not.
   */
  method Decide(sMax: real, pIn: real, n: nat) returns (ok: bool)
    requires 1 <= n && sMax >= 0.0 && pIn >= 0.0
    ensures ok <==> Detected(sMax, pIn, n)
  {
    var normalised := sMax / (n * n) as real;
    if pIn > 0.0 {
      var snr := normalised / pIn;
      DecisionIsSnrTest(sMax, pIn, n);
      ok := snr > GAMMA;
    } else {
      ok := normalised > 0.0;
    }
  }

  /** The working buffer after the first k hypotheses have each been shifted into it. */
  ghost function AfterShifts(p: Problem, buf: seq<real>, k: int): (work: seq<real>)
    requires p.Valid() && 2 * p.n <= |buf| && 0 <= k <= |p.freqs|
    ensures |work| == |buf|
  {
    if k == 0 then buf else ShiftWindow(p.samples, p.n, p.freqs[k - 1], p.osc) + AfterShifts(p, buf, k - 1)[2 * p.n..]
  }

  /** Only the last shift shows: the front holds its window, the rest is the buffer as it was. */
  lemma {:induction false} AfterShiftsLast(p: Problem, buf: seq<real>, k: int)
    requires p.Valid() && 2 * p.n <= |buf| && 0 <= k <= |p.freqs|
    ensures AfterShifts(p, buf, k)[2 * p.n..] == buf[2 * p.n..]
    ensures k > 0 ==> AfterShifts(p, buf, k)[..2 * p.n] == ShiftWindow(p.samples, p.n, p.freqs[k - 1], p.osc)
  {
    if k > 0 {
      AfterShiftsLast(p, buf, k - 1);
      var w := ShiftWindow(p.samples, p.n, p.freqs[k - 1], p.osc);
      assert AfterShifts(p, buf, k) == w + AfterShifts(p, buf, k - 1)[2 * p.n..];
    }
  }

  /**
    One pass of the outer loop: the window shifted for hypothesis i into
    the front of the working buffer, then the code-phase sweep over it.
   */
  method TryHypothesis(p: Problem, i: int, ghost buf: seq<real>, work: seq<real>, sMax: real, ghost bestI: int, bestCodePhase: int, bestDoppler: int)
    returns (work': seq<real>, sMax': real, ghost bestI': int, bestCodePhase': int, bestDoppler': int)
    requires p.Valid() && 0 <= i < |p.freqs| && 2 * p.n <= |buf| && work == AfterShifts(p, buf, i)
    requires BestSoFar(Scores(p), |p.freqs|, p.n, i, 0, sMax, bestI, bestCodePhase)
    requires Recorded(p, sMax, bestI, bestDoppler)
    ensures work' == AfterShifts(p, buf, i + 1)
    ensures BestSoFar(Scores(p), |p.freqs|, p.n, i + 1, 0, sMax', bestI', bestCodePhase')
    ensures Recorded(p, sMax', bestI', bestDoppler')
  {
    work' := FrequencyShift(p.samples, p.n, p.freqs[i], p.osc, work);
    assert work'[..2 * p.n] == ShiftWindow(p.samples, p.n, p.freqs[i], p.osc);
    sMax', bestI', bestCodePhase', bestDoppler' :=
      ScanHypothesis(p, i, work'[..2 * p.n], sMax, bestI, bestCodePhase, bestDoppler);
  }

  /** The sweep's final record is the search outcome: S_max is the peak and (tau, fd) the first best. */
  lemma SweepRecord(p: Problem, sMax: real, bestI: int, tau: int, fd: int)
    requires p.Valid() && BestSoFar(Scores(p), |p.freqs|, p.n, |p.freqs|, 0, sMax, bestI, tau)
    requires Recorded(p, sMax, bestI, fd)
    ensures sMax == PeakOf(p)
    ensures IsFirstBest(p, tau, fd)
  {
    SweepEndsAtFirstPeak(Scores(p), |p.freqs|, p.n, sMax, bestI, tau);
  }

  /**
    The two search loops: for each hypothesis in order, shift the window
    into the working buffer, then sweep the code phases. Returns S_max,
    the recorded code phase and Doppler value (the running maximum over
    the whole grid, ghost bestI naming the winning hypothesis) and the
    working buffer after every shift.
   */
  method Sweep(p: Problem, buf: seq<real>) returns (sMax: real, bestCodePhase: int, bestDopplerFrequency: int, work: seq<real>, ghost bestI: int)
    requires p.Valid() && 2 * p.n <= |buf|
    ensures BestSoFar(Scores(p), |p.freqs|, p.n, |p.freqs|, 0, sMax, bestI, bestCodePhase)
    ensures Recorded(p, sMax, bestI, bestDopplerFrequency)
    ensures work == AfterShifts(p, buf, |p.freqs|)
  {
    var n := p.n;
    sMax := 0.0;
    bestCodePhase, bestDopplerFrequency := 0, 0;
    bestI := 0;
    SweepStarts(Scores(p), |p.freqs|, n);

    work := buf;
    var i := 0;
    while i < |p.freqs|
      invariant 0 <= i <= |p.freqs|
      invariant work == AfterShifts(p, buf, i)
      invariant BestSoFar(Scores(p), |p.freqs|, n, i, 0, sMax, bestI, bestCodePhase)
      invariant Recorded(p, sMax, bestI, bestDopplerFrequency)
    {
      work, sMax, bestI, bestCodePhase, bestDopplerFrequency :=
        TryHypothesis(p, i, buf, work, sMax, bestI, bestCodePhase, bestDopplerFrequency);
      i := i + 1;
    }
  }

  /**
    The acquisition search with window length n. Without a working buffer
    it fails at once and changes nothing. Otherwise it records the first
    grid point, in search order, of largest squared correlation (or code
    phase 0 and 0 Hz when none exceeds 0), leaves the frequency-shifted
    window of the last hypothesis in the working buffer, and reports
    whether the normalised peak clears the threshold; the record is
    written whether or not it does.
   */
  method Search(a: Session, n: nat, freqs: seq<int>, osc: Oscillator) returns (ok: bool, b: Session)
    requires 1 <= n && Ready(a, n)
    ensures a.shifted.None? ==> !ok && b == a
    ensures a.shifted.Some? ==>
              && b.samples == a.samples && b.codes == a.codes
              && b.shifted.Some? && |b.shifted.value| == |a.shifted.value|
              && b.shifted.value[2 * n..] == a.shifted.value[2 * n..]
              && (|freqs| == 0 ==> b.shifted == a.shifted)
              && (|freqs| > 0 ==> b.shifted.value[..2 * n] == ShiftWindow(a.samples.data, n, freqs[|freqs| - 1], osc))
    ensures a.shifted.Some? ==>
              var p := ProblemOf(a, n, freqs, osc);
              && IsFirstBest(p, b.codePhase, b.dopplerFrequency)
              && (ok <==> Detected(PeakOf(p), Power(a.samples.data, n), n))
  {
    if a.shifted.None? {
      return false, a;
    }
    var p := ProblemOf(a, n, freqs, osc);
    var pIn := InputPower(p.samples, n);
    var sMax, bestCodePhase, bestDopplerFrequency, work, bestI := Sweep(p, a.shifted.value);
    SweepRecord(p, sMax, bestI, bestCodePhase, bestDopplerFrequency);
    AfterShiftsLast(p, a.shifted.value, |freqs|);
    ok := Decide(sMax, pIn, n);
    b := a.(shifted := Some(work), codePhase := bestCodePhase, dopplerFrequency := bestDopplerFrequency);
  }

  /**
    startAcquisition as the engine calls it: the search over the first N
    samples for the given Doppler hypotheses.
   */
  method StartAcquisition(a: Session, freqs: seq<int>, osc: Oscillator) returns (ok: bool, b: Session)
    requires Ready(a, N)
    ensures a.shifted.None? ==> !ok && b == a
    ensures a.shifted.Some? ==>
              && b.samples == a.samples && b.codes == a.codes
              && b.shifted.Some? && |b.shifted.value| == |a.shifted.value|
              && b.shifted.value[2 * N..] == a.shifted.value[2 * N..]
              && (|freqs| == 0 ==> b.shifted == a.shifted)
              && (|freqs| > 0 ==> b.shifted.value[..2 * N] == ShiftWindow(a.samples.data, N, freqs[|freqs| - 1], osc))
              && IsFirstBest(ProblemOf(a, N, freqs, osc), b.codePhase, b.dopplerFrequency)
              && (ok <==> Detected(PeakOf(ProblemOf(a, N, freqs, osc)), Power(a.samples.data, N), N))
  {
    ok, b := Search(a, N, freqs, osc);
  }
}
