# Binary object identification, modelled in Dafny

This project models the identification engine of the IR tracker. The tracker
follows objects that blink an 8-bit identifier as three intensity levels:
Low (0), High (1) and a Stop level that frames each payload. Once per frame
the engine moves every tracked object through a four-phase state machine:

- **Requested**: clear the sample buffer, latch `samplingTime` into the
  sampling timer, reset the timer and move to Sampling in the same frame.
- **Sampling**: buffer the frame's `(intensity, timestamp)`, then ask the
  timer whether the sampling window is over.
- **Identifying**: run the decode pipeline. It finds three intensity
  thresholds, then the flanks (level changes) and the frame between two Stop
  flanks. It interpolates the flanks lost to under-sampling and reads the last
  eight flanks as the identifier. Any failed check restarts at Requested.
- **Detected**: nothing happens.

The interval timer `ElapsedTimer` that closes the sampling window is part of
the model.

Everything is a pure function over immutable values. One frame of one object
is `Engine.Tick`, which takes the clock readings its timer makes as a
parameter. The modules follow the source's structure:

- `Timer` is `ElapsedTimer`.
- `Signal` holds samples and flanks.
- `ThresholdDiscovery` is `detectThresholds`.
- `FlankDetection` is `detectFlanks`.
- `Interpolation` is `interpolateFlanks`.
- `Decoding` is the bit assembly at the end of `identify`.
- `Engine` holds `recognizeObjectId`, `start`, `sampling` and `identify`.

Several pieces are parameters rather than models:

- **Clock readings.** `elapsed()` reads the clock twice: once to compare and
  once to store the new reference point. `Timer.Readings` carries both
  readings.
- **The binning library.** `binByDouble` is a function parameter
  (`ThresholdDiscovery.Binning`). Everything after it is modelled over
  `real`: the filter, the stable sort by size, `take(3)`, the averages and
  the margin.
- **The classifier.** `Identification.getFlank` is a function parameter
  (`Engine.Collaborators`). The flank it yields for a sample carries that
  sample's timestamp.

Three details of the code shape the model:

- **The margin gap is rounded.** `marginGap` is `(minGap * 1.5).roundToLong()`.
  For an integer `minGap` that is `(3·minGap + 1) / 2` with floor division
  (`Interpolation.MarginGap`).
- **Zero samples are not guarded.** `identify` starts decoding without
  checking that a sample was buffered; it would fail on `min()!!` or
  `samples[0]`. The model states this as a precondition
  (`requires |samples| > 0`). It also proves that a consistent object, one
  whose Identifying phase always holds a sample, stays consistent
  (`Engine.Tick`).
- **The sampling timer restarts on every poll.** `elapsed()` moves its
  reference point on every call, and `sampling` calls it on every frame.
  So the sampling window closes only on a frame that arrives at least
  `samplingTime` after the previous frame, not after the first one
  (`Timer.PollFiresOnlyAfterLongGap`). The model keeps this behaviour.

## Model

| member | source | states |
|---|---|---|
| Timer.New | src/main/kotlin/ch/bildspur/timer/ElapsedTimer.kt:3-4 | A new timer keeps the given duration, and its reference point is the clock reading at construction. |
| Timer.Elapsed | src/main/kotlin/ch/bildspur/timer/ElapsedTimer.kt:6-11 | The result is true iff at least `duration` passed between the reference point and the comparison reading. The reference point becomes the second clock reading, whatever the result. The duration is unchanged. |
| Timer.Reset | src/main/kotlin/ch/bildspur/timer/ElapsedTimer.kt:13-15 | The reference point becomes `now` and the duration is unchanged. |
| Timer.Poll | src/main/kotlin/ch/bildspur/timer/ElapsedTimer.kt:6-11 | Polling repeatedly gives one answer per poll and never changes the duration. The reference point left behind is the last poll's second reading. |
| Timer.ElapsedAfterReset | src/main/kotlin/ch/bildspur/timer/ElapsedTimer.kt:6-15 | After `reset()` at `now`, the next `elapsed()` depends only on the time since `now`. |
| Timer.PollFiresOnlyAfterLongGap | src/main/kotlin/ch/bildspur/timer/ElapsedTimer.kt:6-11 | In any sequence of polls, poll `k` answers true iff at least `duration` passed since the reference point left by poll `k-1`. |
| Timer.FrequentPollingNeverFires | src/main/kotlin/ch/bildspur/timer/ElapsedTimer.kt:6-11 | A timer polled more often than its duration never fires, however long the polling lasts in total. |
| FlankDetection.Follow | src/main/kotlin/ch/zhdk/tracking/pipeline/identification/BinaryObjectIdentifier.kt:157-171 | The loop over the remaining samples emits no OutOfRange flank. Its first flank differs in type from the last flank seen, and adjacent flanks differ in type. It emits a subsequence of the classified samples. |
| FlankDetection.DetectFlanks | src/main/kotlin/ch/zhdk/tracking/pipeline/identification/BinaryObjectIdentifier.kt:148-174 | The output has no OutOfRange flank and no two adjacent flanks of the same type. It is a subsequence of the classified samples, in sample order, so it is no longer than the sample list. |
| FlankDetection.DedupAfter | src/main/kotlin/ch/zhdk/tracking/pipeline/identification/BinaryObjectIdentifier.kt:157-171 | After an emitted in-range flank `x`, the loop's output is exactly: keep the in-range classifications, then collapse each run of equal types to its first flank, with `x` leading. |
| FlankDetection.DedupFromOutOfRange | src/main/kotlin/ch/zhdk/tracking/pipeline/identification/BinaryObjectIdentifier.kt:152-171 | When the first sample is OutOfRange, the loop's output is exactly the run starts of the in-range classifications. |
| FlankDetection.DetectFlanksIsRunStarts | src/main/kotlin/ch/zhdk/tracking/pipeline/identification/BinaryObjectIdentifier.kt:148-174 | `detectFlanks` equals an independent definition: drop the OutOfRange classifications, then keep the first flank of every run of equal types. OutOfRange samples never break a run. |
| ThresholdDiscovery.MinOf | src/main/kotlin/ch/zhdk/tracking/pipeline/identification/BinaryObjectIdentifier.kt:105 | `min()` of a non-empty list is an element that no element is below. |
| ThresholdDiscovery.MaxOf | src/main/kotlin/ch/zhdk/tracking/pipeline/identification/BinaryObjectIdentifier.kt:105 | `max()` of a non-empty list is an element that no element is above. |
| ThresholdDiscovery.BinLayout | src/main/kotlin/ch/zhdk/tracking/pipeline/identification/BinaryObjectIdentifier.kt:105-112 | The bins start at the smallest intensity, and the bin size is a sixth of the range. It is never negative, and six bins reach exactly the largest intensity, so together they cover every intensity. |
| ThresholdDiscovery.NonEmpty | src/main/kotlin/ch/zhdk/tracking/pipeline/identification/BinaryObjectIdentifier.kt:114 | The filter keeps only non-empty bins, each one a bin of the input. It is never longer than the input. |
| ThresholdDiscovery.NonEmptyKeeps | src/main/kotlin/ch/zhdk/tracking/pipeline/identification/BinaryObjectIdentifier.kt:114 | Every non-empty bin survives the filter. |
| ThresholdDiscovery.NonEmptyKeepsOrder | src/main/kotlin/ch/zhdk/tracking/pipeline/identification/BinaryObjectIdentifier.kt:114 | The filter keeps the input order: for every size `k > 0`, the bins of size `k` are exactly those of the input, in the same order. |
| ThresholdDiscovery.Insert | src/main/kotlin/ch/zhdk/tracking/pipeline/identification/BinaryObjectIdentifier.kt:115 | Inserting a bin into a list sorted by descending size keeps it sorted. It adds exactly that bin, which goes first when it is at least as large as the current first bin. |
| ThresholdDiscovery.SortBySizeDesc | src/main/kotlin/ch/zhdk/tracking/pipeline/identification/BinaryObjectIdentifier.kt:115 | `sortedByDescending { size }` yields a permutation of its input ordered by descending size. |
| ThresholdDiscovery.InsertIsStable | src/main/kotlin/ch/zhdk/tracking/pipeline/identification/BinaryObjectIdentifier.kt:115 | Inserting a bin into a sorted list puts it ahead of every bin of its own size and leaves the order of the other bins of that size alone. |
| ThresholdDiscovery.SortBySizeDescIsStable | src/main/kotlin/ch/zhdk/tracking/pipeline/identification/BinaryObjectIdentifier.kt:115 | The sort is stable: for every size, the bins of that size come out in their input order. |
| ThresholdDiscovery.TopBins | src/main/kotlin/ch/zhdk/tracking/pipeline/identification/BinaryObjectIdentifier.kt:109-116 | The kept bins number three, or fewer when fewer bins are non-empty. Each kept bin is a non-empty input bin. As a multiset they are drawn from the non-empty bins, and they are ordered by descending size. |
| ThresholdDiscovery.OfSizeOfPrefix | src/main/kotlin/ch/zhdk/tracking/pipeline/identification/BinaryObjectIdentifier.kt:116 | `take(n)` keeps, of every size class, a prefix of that class. |
| ThresholdDiscovery.TopBinsKeepEarliest | src/main/kotlin/ch/zhdk/tracking/pipeline/identification/BinaryObjectIdentifier.kt:114-116 | On ties in size the earliest bins are kept: for every size, the kept bins of that size are a prefix of the input bins of that size. |
| ThresholdDiscovery.TopBinsAreLargest | src/main/kotlin/ch/zhdk/tracking/pipeline/identification/BinaryObjectIdentifier.kt:114-116 | No bin left out of the top bins holds more values than a bin kept. |
| ThresholdDiscovery.Average | src/main/kotlin/ch/zhdk/tracking/pipeline/identification/BinaryObjectIdentifier.kt:130 | `average()` of a non-empty bin lies between its smallest and its largest value. |
| ThresholdDiscovery.Sort3 | src/main/kotlin/ch/zhdk/tracking/pipeline/identification/BinaryObjectIdentifier.kt:130 | `sorted()` of three averages is ascending and a permutation of them. |
| ThresholdDiscovery.Min | src/main/kotlin/ch/zhdk/tracking/pipeline/identification/BinaryObjectIdentifier.kt:131 | The smaller of the two neighbour distances is one of them and is below both. |
| ThresholdDiscovery.FromAverages | src/main/kotlin/ch/zhdk/tracking/pipeline/identification/BinaryObjectIdentifier.kt:130-137 | Low, high and stop are the three averages in ascending order. The margin is half the smaller neighbour distance times the factor, and it is non-negative when the factor is. |
| ThresholdDiscovery.DetectThresholds | src/main/kotlin/ch/zhdk/tracking/pipeline/identification/BinaryObjectIdentifier.kt:100-146 | Discovery fails iff fewer than three bins are non-empty. On success, `low <= high <= stop`, and the three thresholds are, as a multiset, the averages of the three most populated bins. The margin is the scaled half distance. |
| Interpolation.StopIndices | src/main/kotlin/ch/zhdk/tracking/pipeline/identification/BinaryObjectIdentifier.kt:180-181 | The listed positions are in range, hold Stop flanks and strictly increase. |
| Interpolation.StopIndicesComplete | src/main/kotlin/ch/zhdk/tracking/pipeline/identification/BinaryObjectIdentifier.kt:180-181 | Every Stop flank's position is listed. |
| Interpolation.Spacings | src/main/kotlin/ch/zhdk/tracking/pipeline/identification/BinaryObjectIdentifier.kt:182 | Element `j` is the distance from Stop position `j` to Stop position `j+1`. |
| Interpolation.FirstMaxIndex | src/main/kotlin/ch/zhdk/tracking/pipeline/identification/BinaryObjectIdentifier.kt:183-184 | `maxBy` picks a largest element, and no earlier element is as large. |
| Interpolation.SelectedPair | src/main/kotlin/ch/zhdk/tracking/pipeline/identification/BinaryObjectIdentifier.kt:180-184 | The selected consecutive Stop pair has the largest index distance, and it is the first such pair on ties. |
| Interpolation.NoStopBetween | src/main/kotlin/ch/zhdk/tracking/pipeline/identification/BinaryObjectIdentifier.kt:180-181 | No Stop flank lies strictly between two consecutive listed Stop positions. |
| Interpolation.Frame | src/main/kotlin/ch/zhdk/tracking/pipeline/identification/BinaryObjectIdentifier.kt:180-185 | The frame is two Stop flanks in range with no Stop flank between them. Their distance is at least that of every consecutive Stop pair, and strictly more than that of every pair that starts earlier, as `maxBy` keeps the first maximum. |
| Interpolation.Window | src/main/kotlin/ch/zhdk/tracking/pipeline/identification/BinaryObjectIdentifier.kt:185 | `flankPattern` is exactly the flanks from the frame's first Stop to its second, both included, so it has at least two flanks and starts and ends with a Stop flank. |
| Interpolation.WindowInteriorHasNoStop | src/main/kotlin/ch/zhdk/tracking/pipeline/identification/BinaryObjectIdentifier.kt:185 | Only the two ends of `flankPattern` are Stop flanks. |
| Interpolation.WindowKeepsAbsentKind | src/main/kotlin/ch/zhdk/tracking/pipeline/identification/BinaryObjectIdentifier.kt:185 | `flankPattern` holds no flank of a type the whole flank list lacks. |
| Interpolation.Steps | src/main/kotlin/ch/zhdk/tracking/pipeline/identification/BinaryObjectIdentifier.kt:190 | Gap `j` is the time from flank `j` to flank `j+1`. |
| Interpolation.MinOrZero | src/main/kotlin/ch/zhdk/tracking/pipeline/identification/BinaryObjectIdentifier.kt:191 | `min() ?: 0` is a gap that no gap is below, or 0 when there are no gaps. |
| Interpolation.MarginGap | src/main/kotlin/ch/zhdk/tracking/pipeline/identification/BinaryObjectIdentifier.kt:192 | The margin gap is positive iff the minimal gap is. For a non-negative minimal gap, it is at least the minimal gap. |
| Interpolation.MarginGapRounds | src/main/kotlin/ch/zhdk/tracking/pipeline/identification/BinaryObjectIdentifier.kt:192 | `(3·minGap + 1) / 2` is `1.5·minGap` rounded half up, as `roundToLong` rounds, for every sign of `minGap`. |
| Interpolation.Margin | src/main/kotlin/ch/zhdk/tracking/pipeline/identification/BinaryObjectIdentifier.kt:190-192 | The margin is 1.5 times the smallest gap after the opening Stop, rounded half up as `roundToLong` rounds, and 0 when there is no gap. It is positive iff there are gaps and all of them are positive, and at most twice every non-negative gap. |
| Interpolation.Synthetic | src/main/kotlin/ch/zhdk/tracking/pipeline/identification/BinaryObjectIdentifier.kt:204-208 | A gap within the margin adds nothing. Every synthetic flank copies the type of the flank before it. |
| Interpolation.SyntheticShape | src/main/kotlin/ch/zhdk/tracking/pipeline/identification/BinaryObjectIdentifier.kt:204-208 | For a positive margin `m` and gap `g`, the count `n` of synthetic flanks satisfies `n·m < g <= (n+1)·m`, which makes it `ceil(g/m) - 1`. The `k`-th synthetic flank sits `(k+1)·m` before the next flank. |
| Interpolation.SyntheticCount | src/main/kotlin/ch/zhdk/tracking/pipeline/identification/BinaryObjectIdentifier.kt:204-208 | For a positive margin `m`, the count `n` for a positive gap `g` is the one with `n·m < g <= (n+1)·m`. It is 0 for a gap that is not positive. |
| Interpolation.SyntheticCountIs | src/main/kotlin/ch/zhdk/tracking/pipeline/identification/BinaryObjectIdentifier.kt:204-208 | For a positive margin, the inner loop adds exactly `SyntheticCount` flanks for every gap. |
| Interpolation.Fill | src/main/kotlin/ch/zhdk/tracking/pipeline/identification/BinaryObjectIdentifier.kt:198-209 | With a positive margin, the outer loop emits one flank per walked flank plus `ceil(g/m) - 1` synthetic flanks for every positive gap `g`. |
| Interpolation.Runs | src/main/kotlin/ch/zhdk/tracking/pipeline/identification/BinaryObjectIdentifier.kt:198-208 | There is one run per walked flank. Run `j` is flank `j` followed by the synthetic flanks for gap `j`. |
| Interpolation.FillIsRuns | src/main/kotlin/ch/zhdk/tracking/pipeline/identification/BinaryObjectIdentifier.kt:198-209 | The loop's output is the concatenation of the runs, in flank order. |
| Interpolation.FillKeepsInterior | src/main/kotlin/ch/zhdk/tracking/pipeline/identification/BinaryObjectIdentifier.kt:198-209 | Every flank that the loop walks appears in the result, in its original order. |
| Interpolation.FillAvoidsKind | src/main/kotlin/ch/zhdk/tracking/pipeline/identification/BinaryObjectIdentifier.kt:198-209 | A type absent from the walked flanks is absent from the result. |
| Interpolation.FillHasNoStop | src/main/kotlin/ch/zhdk/tracking/pipeline/identification/BinaryObjectIdentifier.kt:198-209 | Interpolating a window whose interior has no Stop flank yields no Stop flank. |
| Interpolation.FillIsLowOrHigh | src/main/kotlin/ch/zhdk/tracking/pipeline/identification/BinaryObjectIdentifier.kt:198-209 | Interpolating an in-range window yields only Low and High flanks. |
| Interpolation.FillKeepsWindow | src/main/kotlin/ch/zhdk/tracking/pipeline/identification/BinaryObjectIdentifier.kt:198-209 | The interior of `flankPattern` survives interpolation in order. |
| Interpolation.InterpolateFlanks | src/main/kotlin/ch/zhdk/tracking/pipeline/identification/BinaryObjectIdentifier.kt:176-212 | Given two Stop flanks, the call never returns normally iff the margin gap is not positive and some gap exceeds it. Otherwise the result is the interpolation of exactly the frame `Window` selects, with the margin `Margin` derives. It has no Stop flank, and only Low and High flanks when the input has no OutOfRange flank. It keeps the frame's interior in order. |
| Interpolation.HangsIffSharedTimestamp | src/main/kotlin/ch/zhdk/tracking/pipeline/identification/BinaryObjectIdentifier.kt:190-208 | For flanks in time order, the inner loop fails to end iff some gap is 0 and some gap is positive. |
| Interpolation.FillWithoutLongGaps | src/main/kotlin/ch/zhdk/tracking/pipeline/identification/BinaryObjectIdentifier.kt:198-209 | When no gap exceeds the margin, the result is exactly the walked flanks. |
| Interpolation.InterpolationHangsOnSharedTimestamp | src/main/kotlin/ch/zhdk/tracking/pipeline/identification/BinaryObjectIdentifier.kt:190-208 | The input Stop@0, Low@10, High@10, Stop@20 makes the inner loop append flanks without end. |
| Interpolation.SyntheticCountExamples | src/main/kotlin/ch/zhdk/tracking/pipeline/identification/BinaryObjectIdentifier.kt:204-208 | Against a margin of 15, the synthetic counts are: gap 24 gives 1 (2.4 periods against 1.5), gap 31 gives 2, gap 15 gives 0 and gap 45 gives 2. |
| Decoding.TakeLast | src/main/kotlin/ch/zhdk/tracking/pipeline/identification/BinaryObjectIdentifier.kt:86 | `takeLast(n)` is the last `min(n, size)` flanks, in order. |
| Decoding.Reverse | src/main/kotlin/ch/zhdk/tracking/pipeline/identification/BinaryObjectIdentifier.kt:86 | `reversed()`: element `i` is element `size-1-i` of the input. |
| Decoding.LittleEndian | src/main/kotlin/ch/zhdk/tracking/pipeline/identification/BinaryObjectIdentifier.kt:86-89 | The value of `n` flanks read as bits is below `2^n`. |
| Decoding.LittleEndianBits | src/main/kotlin/ch/zhdk/tracking/pipeline/identification/BinaryObjectIdentifier.kt:86-89 | Bit `i` of the value is 1 iff flank `i` exists and is High. |
| Decoding.LittleEndianAppend | src/main/kotlin/ch/zhdk/tracking/pipeline/identification/BinaryObjectIdentifier.kt:87-88 | A High flank at index `n` adds exactly `2^n`, the effect of `1 shl index or id` on a clear bit. |
| Decoding.Identifier | src/main/kotlin/ch/zhdk/tracking/pipeline/identification/BinaryObjectIdentifier.kt:84-89 | The identifier lies in `[0, 255]`. |
| Decoding.IdentifierBits | src/main/kotlin/ch/zhdk/tracking/pipeline/identification/BinaryObjectIdentifier.kt:84-89 | Bit `i` of the identifier is 1 iff `i < 8` and the `i`-th flank from the end is High, the last flank being bit 0. |
| Decoding.SetBits | src/main/kotlin/ch/zhdk/tracking/pipeline/identification/BinaryObjectIdentifier.kt:86-89 | The `forEachIndexed` loop that sets bit `index` for every High flank computes the little-endian value of the flanks. |
| Decoding.DecodeIdentifier | src/main/kotlin/ch/zhdk/tracking/pipeline/identification/BinaryObjectIdentifier.kt:84-89 | The source's loop over the reversed last eight flanks yields `Identifier`. |
| Decoding.Decodes178 | src/main/kotlin/ch/zhdk/tracking/pipeline/identification/BinaryObjectIdentifier.kt:84-89 | The payload High Low High High Low Low High Low decodes to 178. |
| Engine.Start | src/main/kotlin/ch/zhdk/tracking/pipeline/identification/BinaryObjectIdentifier.kt:26-34 | `start` empties the samples and sets the timer to `samplingTime`, reset at `now`. The phase becomes Sampling. The identifier, thresholds, intensity and timestamp are unchanged. |
| Engine.TakeSample | src/main/kotlin/ch/zhdk/tracking/pipeline/identification/BinaryObjectIdentifier.kt:36-50 | `sampling` appends exactly the frame's `(intensity, timestamp)`. The phase becomes Identifying iff the timer has elapsed, and stays Sampling otherwise. The timer is moved to the second clock reading with its duration kept. |
| Engine.Intensities | src/main/kotlin/ch/zhdk/tracking/pipeline/identification/BinaryObjectIdentifier.kt:102 | Element `i` is the intensity of sample `i`. |
| Engine.FlanksWith | src/main/kotlin/ch/zhdk/tracking/pipeline/identification/BinaryObjectIdentifier.kt:60 | The flanks found with the thresholds in force hold no OutOfRange flank. |
| Engine.Decode | src/main/kotlin/ch/zhdk/tracking/pipeline/identification/BinaryObjectIdentifier.kt:52-82 | The attempt fails on thresholds iff discovery fails, and otherwise carries the discovered thresholds. It fails on Stops iff fewer than two Stop flanks are found, and never returns iff interpolation never returns. It fails on bits when interpolation returns fewer than 7 flanks. It succeeds whenever every check passes, with the interpolated flanks, at least 7 of them, all Low or High. |
| Engine.Interpolate | src/main/kotlin/ch/zhdk/tracking/pipeline/identification/BinaryObjectIdentifier.kt:71-80 | After the Stop check, the attempt never returns iff interpolation does not. It fails on bits iff fewer than 7 flanks come back, and otherwise succeeds with exactly those flanks. |
| Engine.Conclude | src/main/kotlin/ch/zhdk/tracking/pipeline/identification/BinaryObjectIdentifier.kt:52-97 | A success sets the identifier from the flanks, clears the samples and marks the object Detected. Any failure goes back to Requested and keeps the identifier and the samples. Thresholds are stored whenever discovery succeeded. The timer is untouched. |
| Engine.IdentifyAsWritten | src/main/kotlin/ch/zhdk/tracking/pipeline/identification/BinaryObjectIdentifier.kt:52-98 | `identify` as written fails to return exactly when interpolation never returns. |
| Engine.Identify | src/main/kotlin/ch/zhdk/tracking/pipeline/identification/BinaryObjectIdentifier.kt:52-98 | `identify` always ends in Requested or Detected, and agrees with the source whenever the source returns. It reaches Detected iff decoding succeeds, with the samples cleared and the identifier the decoded value in `[0, 255]`. A failure keeps the identifier and the samples. The thresholds are the discovered ones whenever discovery succeeds. |
| Engine.Tick | src/main/kotlin/ch/zhdk/tracking/pipeline/identification/BinaryObjectIdentifier.kt:14-24 | One frame leaves a Detected object untouched. Requested clears the samples and restarts the timer with `samplingTime` at this frame's reading, entering Sampling. Sampling appends the frame's sample, keeps the thresholds and enters Identifying iff the timer elapsed. Identifying runs the corrected `identify`. Only a Detected outcome changes the identifier, and the step keeps an object consistent. |
| Engine.TickAsWritten | src/main/kotlin/ch/zhdk/tracking/pipeline/identification/BinaryObjectIdentifier.kt:14-24 | One frame as written fails to return exactly when the object is Identifying and interpolation never returns. Whenever it returns, it agrees with `Tick`. |
| Engine.RecognizeObjectId | src/main/kotlin/ch/zhdk/tracking/pipeline/identification/BinaryObjectIdentifier.kt:14-24 | With the corrected `identify`, every object is stepped once, independently of the others. Detected objects are unchanged and consistency is kept. |
| Engine.RecognizeObjectIdAsWritten | src/main/kotlin/ch/zhdk/tracking/pipeline/identification/BinaryObjectIdentifier.kt:14-24 | The frame as written fails to return exactly when some object's frame does. When it returns, it agrees with `RecognizeObjectId`. |
| Engine.RestartBuffersOneSample | src/main/kotlin/ch/zhdk/tracking/pipeline/identification/BinaryObjectIdentifier.kt:26-50 | Two frames after Requested, exactly the second frame's sample is buffered. The window closes iff `samplingTime` passed since the reset. |

## Left out

- `Pipeline.kt`, the frame sources, the BLE device, the configuration UI
  and `BaudRate.kt` are not part of this model. They are threads, I/O and
  declarations.
- The `binByDouble` binning comes from a foreign library, so it is a
  function parameter. `Double` arithmetic is modelled over `real`, with no
  rounding of averages, distances or the margin.
- `Identification.getFlank` is not part of this model. The classifier is a
  function parameter. Its flank is taken to carry the sample's timestamp.
- All `println` diagnostics are left out.
- `Long` overflow of timestamps, gaps and durations is not modelled.
  Integers are unbounded.
- `minGap * 1.5` is computed in `Double` before `roundToLong`. The model
  computes it exactly, which agrees for every gap below 2^51.
- The wall clock is left out. `millis()` readings are parameters: two per
  `elapsed()` call, one per `reset()`.
- Interpolation.InterpolateFlanks: requires at least two Stop flanks. The
  source's `maxBy(...)!!` throws without them, and `identify` checks for
  them before the call.
- FlankDetection.DetectFlanks, Engine.Decode, Engine.Identify: require a
  non-empty sample buffer. The source would throw on `samples[0]` and
  `min()!!`. `Engine.Tick` guarantees a sample in Identifying.
- Engine.Tick: an Identifying object is stepped with the corrected
  `Engine.Identify`, which turns a non-returning interpolation into a
  failed check. `Engine.TickAsWritten` is the frame as written.
- Engine.RecognizeObjectId: steps every object with the corrected
  `Engine.Tick`. In the source, `forEach` stops at the first object whose
  interpolation never returns, and the later objects are not stepped;
  `Engine.RecognizeObjectIdAsWritten` is that frame as written.
- ThresholdDiscovery.Bins: only passes `BinLayout` to the binning library,
  whose result is a parameter, so it states nothing of its own.
- Engine.SameObject: only the intensity and the timestamp are compared.
  The other tracker-owned fields of `TactileObject` are not modelled.

## Findings

| source | as written | input that shows it | evidently intended | confidence | as-written member | corrected member |
|---|---|---|---|---|---|---|
| src/main/kotlin/ch/zhdk/tracking/pipeline/identification/BinaryObjectIdentifier.kt:190-208 | `marginGap` is `round(1.5·minGap)`. The inner `while (gap > marginGap)` subtracts `marginGap`, so with a zero or negative margin gap and a gap above it the loop never ends. Each iteration appends a flank at line 207, so the call ends in `OutOfMemoryError`, which escapes `recognizeObjectId`; `Pipeline.kt` has no handler for it. | The frame Stop@0, Low@10, High@10, Stop@20. Two interior flanks share a timestamp, so `minGap` and `marginGap` are 0, and the next gap of 10 never shrinks. | A frame whose bit period cannot be estimated is one more failed check, and the object goes back to Requested. | not executed; medium, since it needs two flanks with equal timestamps or timestamps out of order | Engine.IdentifyAsWritten, Engine.TickAsWritten, Engine.RecognizeObjectIdAsWritten, Interpolation.InterpolationHangsOnSharedTimestamp | Engine.Identify, Engine.Tick, Engine.RecognizeObjectId |
