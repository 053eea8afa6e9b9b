# Signal acquisition and range-finder filter, modelled in Dafny

This project models the two algorithmic parts of the SoC_system repository.

**The acquisition engine** (`acquisition.c`):
- `enterSample` and `enterCode` append complex values to interleaved float buffers. Each value takes two slots: the real part, then the imaginary part.
- `startAcquisition` searches a grid of Doppler hypotheses and code phases:
  - it computes the input power of the first N samples;
  - for each hypothesis it frequency-shifts the samples into a working buffer;
  - for each code phase tau it correlates the shifted window circularly against the code;
  - it keeps the first grid point of strictly largest squared correlation;
  - it decides detection by comparing the normalised peak over the input power with the threshold 0.015.

**The range-finder firmware** (`firmware/src/main.c`):
- a Lomuto `partition` and a `quicksort` over int arrays;
- a five-slot ring of sensor readings whose filtered value is the middle element of a sorted copy;
- the interrupt-driven I2C state machine. It starts an SRF02 measurement, waits for the timer, selects the range register, reads two bytes, retries on known-bad byte pairs, and otherwise feeds the reading to the filter.

Float arithmetic is modelled over exact `real`. The cosine and sine of the frequency shift are a parameter, `Oscillator`. Each loop of the C code is a Dafny method over sequences with loop invariants, and each is checked against a reference definition:
- `ShiftWindow` and `Correlation` in complex arithmetic;
- `Peak` and `IsFirstPeak` over a score table;
- `IsMedian` by counting;
- `SortedRange` with multiset equality.

The window length N is a parameter `n` of `Acquisition.Search`. `Acquisition.StartAcquisition` fixes it at 1000, as `acquisition.c:64` does.

Two observations about the code as written:
- **The alternating-code example.** Take N = 4, the code (1, -1, 1, -1), the samples (-1, 1, -1, 1) and the single hypothesis 0 Hz. One might expect the search to recover code phase 1. It does not: every code phase has squared correlation 16, and the strict `>` keeps the first one. The search records code phase 0 and 0 Hz and reports a detection (`AlternatingExample.AlternatingCodeKeepsPhaseZero`).
- **The reading.** The firmware passes `data[0] | data[1]`, the bitwise OR of the two range bytes, to the filter (`firmware/src/main.c:151`). The model keeps that. The reading is therefore always below 256.

## Model

| member | source | states |
|---|---|---|
| Ingestion.Append | acquisition.c:44-46 | the value's real part lands at the cursor and its imaginary part right after; the cursor moves by exactly 2 and every other slot keeps its value |
| Ingestion.AppendAllLayout | acquisition.c:42-47 | appending k values in turn puts value j at slots count+2j and count+2j+1, moves the cursor by 2k and leaves all other slots unchanged |
| Ingestion.FillWindow | acquisition.c:42-47 | filling an empty buffer makes value k of the stream complex value k of the buffer |
| Acquisition.EnterSample | acquisition.c:42-47 | enterSample writes re and im at sampleCount and sampleCount+1, advances sampleCount by 2, and changes nothing else in the sample buffer or elsewhere in the session |
| Acquisition.EnterCode | acquisition.c:49-54 | the same for enterCode on the code buffer and codeCount |
| Acquisition.EnterSamplesAppends | acquisition.c:42-47 | repeated enterSample calls append their values to the sample buffer in call order and touch nothing else |
| Acquisition.EnterCodesAppends | acquisition.c:49-54 | repeated enterCode calls append their values to the code buffer in call order and touch nothing else |
| Acquisition.EnterSampleCodeCommute | acquisition.c:42-54 | enterSample and enterCode write different buffers and counters, so one of each gives the same session in either order |
| Acquisition.EnteredWindow | acquisition.c:42-54 | after the samples and the code are entered into empty buffers, complex value k of each buffer is the k-th value entered |
| Correlator.MixSample | acquisition.c:100-105 | the expanded formulas re*cos - im*sin and re*sin + im*cos write the complex product of sample m and the oscillator into slots 2m and 2m+1 |
| Correlator.FrequencyShift | acquisition.c:94-106 | the shift loop leaves the frequency-corrected window in the first 2n slots of the working buffer and the rest of the buffer as it was |
| Correlator.ShiftPreservesEnergy | acquisition.c:94-106 | with a unit-magnitude oscillator (cos^2 + sin^2 = 1) the shifted window has the same energy as the raw samples |
| Correlator.UnitShift | acquisition.c:94-106 | at 0 Hz the oscillator is 1 and the shift returns the window unchanged |
| Correlator.WrapAround | acquisition.c:114 | for 0 <= a < 2n, a mod n is a below n and a - n from n on |
| Correlator.CircularIndex | acquisition.c:114-120 | the index (m + tau) % N is in [0, N), is m + tau or m + tau - N, and keeps the reads at 2*index and 2*index+1 inside the 2N slots |
| Correlator.CorrelationStep | acquisition.c:122-124 | sr*cr + si*ci and si*cr - sr*ci are the real and imaginary parts of shifted sample times conjugated chip, so each step adds one term of the complex correlation |
| Correlator.AccumulateTerm | acquisition.c:113-124 | one pass of the inner loop extends the partial sums from m to m+1 chips of the complex correlation |
| Correlator.Correlate | acquisition.c:110-125 | after the inner loop, real_sum and imag_sum are the real and imaginary parts of the circular correlation at phase tau |
| Correlator.Magnitude | acquisition.c:128 | the squared magnitude of the correlation is never negative |
| Correlator.Power | acquisition.c:79-85 | the mean power is never negative, and it is 0 exactly when the window's energy is 0 |
| Correlator.InputPower | acquisition.c:79-85 | P_in is the mean of re^2 + im^2 over the first N raw (unshifted) samples, so P_in >= 0 |
| ComplexArith.NormSqMul | acquisition.c:104-105 | the squared magnitude of a product is the product of the squared magnitudes, which is why a unit oscillator keeps energy |
| Detector.ScoreIsMagnitude | acquisition.c:109-128 | the score of grid point (i, tau) is the squared correlation of the window shifted for hypothesis i |
| Detector.PeakOf | acquisition.c:133-137 | S_max is at least every magnitude of the grid, and it is either 0 or the magnitude of some grid point |
| Detector.RecordInSearchGrid | acquisition.c:74-136 | the recorded code phase lies in [0, N), and the recorded Doppler value is 0 or one of the hypotheses |
| Detector.DecisionIsSnrTest | acquisition.c:142-148 | for P_in > 0, S_max > GAMMA*N^2*P_in holds exactly when (S_max/N^2)/P_in > GAMMA |
| Detector.FirstBestUnique | acquisition.c:133-137 | the recorded (code phase, Doppler) pair is determined by the inputs |
| Detector.TieKeepsFirst | acquisition.c:133 | of two grid points that both reach the peak, the later one in search order is never the one recorded |
| Detector.FlatSurfaceKeepsFirst | acquisition.c:133-137 | if every grid point has the same positive magnitude, the search records code phase 0 of the first hypothesis and nothing else |
| Detector.ZeroCorrelation | acquisition.c:113-125 | an all-zero shifted window correlates to 0 over every prefix of the code |
| Detector.ZeroEnergy | acquisition.c:79-85 | an all-zero window has zero energy |
| Detector.ZeroSignal | acquisition.c:142-162 | with all-zero samples, P_in and S_max are 0, nothing is detected, and the recorded hypothesis is (0, 0) |
| Argmax.PeakBefore | acquisition.c:133-137 | the running maximum over the grid points before (i, j) bounds each of them and is 0 or one of their values |
| Argmax.Peak | acquisition.c:133-137 | the maximum over the whole grid bounds every score and is 0 or one of them |
| Argmax.FirstPeakUnique | acquisition.c:133 | at most one grid point is the first, in search order, to reach the peak |
| Argmax.SweepStarts | acquisition.c:74-76 | S_max = 0 with record (0, 0) is a correct running maximum before any grid point is visited |
| Argmax.VisitKeepsBest | acquisition.c:133-137 | the strict `>` update keeps S_max and the record a correct running maximum over the points visited, with the earliest best point recorded |
| Argmax.NextRowKeepsBest | acquisition.c:88-138 | finishing the code phases of one hypothesis carries the running maximum over to the next hypothesis |
| Argmax.SweepEndsAtFirstPeak | acquisition.c:88-139 | after the whole grid, S_max is the peak; the record is the first peak point, or (0, 0) when the peak is 0 |
| Argmax.ConstantTablePeak | acquisition.c:133-137 | a constant positive table has that constant as its peak, reached first at (0, 0) |
| Acquisition.PhaseMagnitude | acquisition.c:109-128 | the magnitude the engine computes at (f_d, tau) is that grid point's score |
| Acquisition.Visit | acquisition.c:128-137 | one grid point's magnitude and strict-`>` update keep S_max, bestCodePhase and bestDopplerFrequency a correct running record |
| Acquisition.ScanHypothesis | acquisition.c:109-138 | the code-phase loop for one hypothesis keeps the running record correct over all N phases |
| Acquisition.AfterShiftsLast | acquisition.c:88-106 | after several hypotheses, the working buffer holds the window of the last one in its first 2N slots and its original contents beyond |
| Acquisition.TryHypothesis | acquisition.c:88-138 | one pass of the outer loop shifts the window for hypothesis i into the buffer and extends the running record over that hypothesis |
| Acquisition.SweepRecord | acquisition.c:74-139 | a correct running record after the last hypothesis is the search outcome: S_max is the peak and the record is the first best point |
| Acquisition.Sweep | acquisition.c:74-139 | the two search loops leave a correct running record over the whole grid and the last hypothesis's window in the buffer |
| Acquisition.Decide | acquisition.c:141-148 | the float test (S_max/N^2)/P_in > GAMMA, including P_in = 0 (+inf passes, NaN fails), is S_max > GAMMA*N^2*P_in |
| Acquisition.Search | acquisition.c:68-162 | a missing working buffer gives false with nothing changed; otherwise codePhase and dopplerFrequency are the first best point in both outcomes, and the result is exactly the SNR test |
| Acquisition.StartAcquisition | acquisition.c:58-163 | the search with N = 1000, with the same outcome as Search: nothing changes without a working buffer; otherwise the slots past 2N are kept, the buffer is untouched when there are no hypotheses, the record is the first best point and the result is the SNR test |
| AlternatingExample.AlternatingCorrelation | acquisition.c:113-125 | for the alternating code against its negation, the partial correlation after m chips is -m times the sign of chip tau |
| AlternatingExample.PointMagnitude | acquisition.c:94-128 | at 0 Hz the example's shifted window is its samples, so every grid point has squared correlation 16 |
| AlternatingExample.AlternatingPower | acquisition.c:79-85 | the alternating samples have input power 1 |
| AlternatingExample.AlternatingPeak | acquisition.c:133-137 | every code phase scores 16, so the peak is 16 and the only record the search can make is (0, 0 Hz) |
| AlternatingExample.AlternatingCodeKeepsPhaseZero | acquisition.c:133-162 | the alternating example is detected (SNR 1 > 0.015) but records code phase 0, not 1, because ties keep the first phase |
| Sorting.Swap | firmware/src/main.c:36-40 | the two values change places, everything else stays, and the multiset of values is unchanged |
| Sorting.SwapInvolution | firmware/src/main.c:36-40 | swapping the same two slots twice restores the array |
| Sorting.PartitionStep | firmware/src/main.c:47-52 | one pass of the partition loop keeps low..i below the pivot and i+1..j at least the pivot, rearranging only low..high |
| Sorting.PlacePivot | firmware/src/main.c:53-54 | the final swap puts the pivot at i+1, between the part below it and the part at least it |
| Sorting.Partition | firmware/src/main.c:43-55 | returns p in [low, high] with arr[p] the old arr[high], everything in low..p-1 strictly less and everything in p+1..high at least it; only low..high is permuted |
| Sorting.RangePermutation | firmware/src/main.c:43-64 | a permutation that leaves everything outside low..high in place permutes the slice low..high itself |
| Sorting.JoinAroundPivot | firmware/src/main.c:58-64 | two sorted parts separated by the pivot form one sorted range |
| Sorting.SortedAfterBothHalves | firmware/src/main.c:59-63 | sorting the two sides of the pivot in turn leaves the whole range sorted |
| Sorting.Quicksort | firmware/src/main.c:58-64 | afterwards arr[low..high] is ascending, holds the same multiset of values, and nothing outside it moved |
| MedianFilter.CountPermutation | firmware/src/main.c:72-78 | counting the values that pass a test does not depend on their order |
| MedianFilter.MiddleIsMedian | firmware/src/main.c:80-81 | the middle element of a sorted odd-length array has more than half the values at most it and more than half at least it |
| MedianFilter.MedianUnique | firmware/src/main.c:81 | an odd-length window has exactly one median |
| MedianFilter.MedianPermutation | firmware/src/main.c:72-81 | the median of the sorted copy is the median of the unsorted ring |
| MedianFilter.InitialIsMedian | firmware/src/main.c:19-22 | the zero-initialised filter is consistent: 0 is the median of five zeros |
| MedianFilter.AddReading | firmware/src/main.c:67-82 | the reading replaces slot readIndex, readIndex becomes (readIndex+1) % 5 and stays in [0, 5), the ring is not reordered, and filteredReading is a value of the ring with at least 3 values <= it and at least 3 >= it |
| RangeFinder.Combine | firmware/src/main.c:151 | the OR of two bytes lies in [0, 255], is at least each byte, and equals the other byte when one is 0 |
| RangeFinder.InterruptStart | firmware/src/main.c:99-108 | interrupt_start requests "start ranging in cm" (0x51 to register 0 of 0xE0) and sets the state to TIMER_INTERRUPT |
| RangeFinder.StateMachine | firmware/src/main.c:111-161 | each state moves as the firmware's switch does, including the retry on an invalid pair and the idle default |
| RangeFinder.StepFollowsCycle | firmware/src/main.c:111-137 | every step moves TIMER_INTERRUPT -> READ_START -> READ_REPEATED -> READ_DATA -> TIMER_INTERRUPT, except a retry, which stays in READ_DATA; WRITE_START is never entered and never left |
| RangeFinder.FilterChangesOnlyOnValidData | firmware/src/main.c:139-152 | the filter changes only in READ_DATA with a valid byte pair |
| RangeFinder.StartUpEstablishesInvariant | firmware/src/main.c:99-107 | after interrupt_start on the zeroed globals, the filter is well formed, its value is the ring's median and the state is on the cycle |
| RangeFinder.RunKeepsInvariant | firmware/src/main.c:111-161 | every step keeps that invariant, so it holds all along any run of interrupts |
| RangeFinder.MeasurementRound | firmware/src/main.c:113-157 | four steps from TIMER_INTERRUPT with a valid pair issue the timer, register select, read and restart in that order and add exactly that reading |
| RangeFinder.InvalidDataRetries | firmware/src/main.c:145-148 | while the pairs (6,0) or (2,81) keep arriving, the machine stays in READ_DATA re-issuing the read, and the filter does not change |

## Left out

- Trigonometry and float rounding of the frequency shift (`acquisition.c:95-98`). The oscillator value for (f_d, n) is the parameter `osc`. The mixing arithmetic around it is modelled.
- Float semantics of the whole computation: exact reals stand in for `float`. The SNR division is modelled by its multiplied-out form `Detected`. At P_in = 0 it gives the same answer as IEEE arithmetic: S_max > 0 gives +inf, which passes, and S_max = 0 gives NaN, which fails.
- `allocateAcquisition` and `deleteAcquisition` (`acquisition.c:25-40`). These are memory allocation and release. The model keeps only their effect: a working buffer is present or absent. The unchecked outer `malloc` is not modelled.
- Acquisition.EnterSample, Acquisition.EnterCode, Ingestion.Append: the C code has no bounds check. The model requires room for one more value, since writing past the buffer is undefined behaviour.
- Acquisition.Search: like the C code, it reads 2N slots of the sample, code and working buffers without checking their sizes. The model requires them (`Ready`).
- A negative `testFreqCount` makes the outer loop run zero times. The model takes the hypotheses as a sequence, so that case is the empty sequence.
- The I2C and SPI drivers, the display output, the timer and compare setup, and the ISR wiring and main loops of `firmware/src/main.c`. These are register writes with no algorithmic content. A step's register writes are abstracted to the transfer it requests (`Action`).
- Concurrency between the two interrupt handlers. Each `state_machine` call is one atomic step.
- Integer widths. Complex indices stay below 1000 and slot indices below 2000, and N*N = 10^6 fits in int32. The filter only compares ints. So no 32-bit overflow can occur. The range bytes are `bv8`.
