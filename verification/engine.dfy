/** `BinaryObjectIdentifier`: the per-object state machine
    Requested -> Sampling -> Identifying -> Detected, stepped once per frame.
    Clock readings, the binning library and the sample classifier are
    parameters. */
module Engine {
  import opened Optional
  import opened Timer
  import opened Signal
  import opened ThresholdDiscovery
  import opened FlankDetection
  import opened Interpolation
  import opened Decoding

  datatype Phase = Requested | Sampling | Identifying | Detected

  /** The decode state an object owns. */
  datatype Identification = Identification(
    phase: Phase,
    samples: seq<Sample>,
    samplingTimer: ElapsedTimer,
    thresholds: Thresholds)

  /** A tracked object as the tracker hands it over for this frame. */
  datatype TactileObject = TactileObject(
    identifier: int,
    intensity: real,
    timestamp: int,
    identification: Identification)

  /** `samplingTime` and `thresholdMarginFactor` of the pipeline config. */
  datatype Config = Config(samplingTime: int, thresholdMarginFactor: real)

  /** The code the engine calls but that is not modelled: the binning library
      and `Identification.getFlank`, which classifies a sample against the
      current thresholds. */
  datatype Collaborators = Collaborators(
    binByDouble: Binning,
    getFlank: (Thresholds, Sample) -> FlankType)

  /** An object in Identifying has at least one buffered sample; the decode
      pipeline reads the first sample and the smallest intensity. */
  predicate Consistent(o: TactileObject)
  {
    o.identification.phase == Identifying ==> |o.identification.samples| > 0
  }

  /** Everything about `o` but its decode phase, samples, timer and
      thresholds is as in `o'`. */
  predicate SameObject(o: TactileObject, o': TactileObject)
  {
    o'.intensity == o.intensity && o'.timestamp == o.timestamp
  }

  /** `start`: clear the samples, latch `samplingTime` into the timer, reset
      it and begin sampling in the same frame. */
  function Start(o: TactileObject, cfg: Config, now: int): (o': TactileObject)
    ensures o'.identification.phase == Sampling
    ensures o'.identification.samples == []
    ensures o'.identification.samplingTimer.duration == cfg.samplingTime
    ensures o'.identification.samplingTimer.timestamp == now
    ensures o'.identification.thresholds == o.identification.thresholds
    ensures o'.identifier == o.identifier && SameObject(o, o')
  {
    var id := o.identification;
    var timer := Reset(id.samplingTimer.(duration := cfg.samplingTime), now);
    o.(identification := id.(samples := [], samplingTimer := timer, phase := Sampling))
  }

  /** `sampling`: buffer this frame's sample, then ask the timer whether the
      window is over. */
  function TakeSample(o: TactileObject, clock: Readings): (o': TactileObject)
    ensures o'.identification.samples
      == o.identification.samples + [Sample(o.intensity, o.timestamp)]
    ensures o'.identification.phase == Identifying || o'.identification.phase == Sampling
    ensures o'.identification.phase == Identifying
      <==> clock.check - o.identification.samplingTimer.timestamp >= o.identification.samplingTimer.duration
    ensures o'.identification.samplingTimer.timestamp == clock.reset
    ensures o'.identification.samplingTimer.duration == o.identification.samplingTimer.duration
    ensures o'.identification.thresholds == o.identification.thresholds
    ensures o'.identifier == o.identifier && SameObject(o, o')
  {
    var id := o.identification;
    var samples := id.samples + [Sample(o.intensity, o.timestamp)];
    var (over, timer) := Elapsed(id.samplingTimer, clock);
    o.(identification := id.(samples := samples, samplingTimer := timer,
                             phase := if over then Identifying else Sampling))
  }

  /** How one run of the decode pipeline ends. */
  datatype Attempt =
    | NoThresholds                                 // fewer than three non-empty bins
    | TooFewStops(th: Thresholds)                  // fewer than two Stop flanks
    | NeverReturns(th: Thresholds)                 // the interpolation loop exhausts memory
    | TooFewBits(th: Thresholds)                   // fewer than 7 interpolated flanks
    | Decoded(th: Thresholds, interpolated: seq<Flank>)

  /** The intensities of the samples, in sampling order. */
  function Intensities(samples: seq<Sample>): (r: seq<real>)
    ensures |r| == |samples|
    ensures forall i :: 0 <= i < |r| ==> r[i] == samples[i].intensity
  {
    seq(|samples|, i requires 0 <= i < |samples| => samples[i].intensity)
  }

  /** The flanks `detectFlanks` finds with the thresholds `th` in force. */
  function FlanksWith(samples: seq<Sample>, th: Thresholds, env: Collaborators): (r: seq<Flank>)
    requires |samples| > 0
    ensures forall i :: 0 <= i < |r| ==> r[i].kind != OutOfRange
  {
    DetectFlanks(samples, s => env.getFlank(th, s))
  }

  /** Every check of `identify` passes: thresholds are found, the flanks hold
      two Stop flanks, and interpolation returns at least 7 flanks. */
  predicate DecodesTo(samples: seq<Sample>, cfg: Config, env: Collaborators)
    requires |samples| > 0
  {
    match DetectThresholds(Intensities(samples), cfg.thresholdMarginFactor, env.binByDouble)
    case None => false
    case Some(th) =>
      var flanks := FlanksWith(samples, th, env);
      |StopIndices(flanks)| >= 2 &&
      InterpolateFlanks(flanks).Some? && |InterpolateFlanks(flanks).value| >= 7
  }

  /** The decode pipeline of `identify`: thresholds, flanks, the Stop check,
      interpolation and the bit-count check. */
  function Decode(samples: seq<Sample>, cfg: Config, env: Collaborators): (a: Attempt)
    requires |samples| > 0
    ensures a.NoThresholds?
      <==> DetectThresholds(Intensities(samples), cfg.thresholdMarginFactor, env.binByDouble).None?
    ensures !a.NoThresholds? ==>
      Some(a.th) == DetectThresholds(Intensities(samples), cfg.thresholdMarginFactor, env.binByDouble)
    ensures a.TooFewStops? <==> !a.NoThresholds? && |StopIndices(FlanksWith(samples, a.th, env))| < 2
    ensures a.Decoded? ==> |a.interpolated| >= 7
    ensures a.Decoded? ==> forall j :: 0 <= j < |a.interpolated| ==>
      a.interpolated[j].kind == Low || a.interpolated[j].kind == High
    ensures a.Decoded? || a.TooFewBits? || a.NeverReturns? ==>
      var flanks := FlanksWith(samples, a.th, env);
      |StopIndices(flanks)| >= 2 &&
      (a.NeverReturns? <==> InterpolateFlanks(flanks).None?) &&
      (a.TooFewBits? ==> InterpolateFlanks(flanks).Some? && |InterpolateFlanks(flanks).value| < 7) &&
      (a.Decoded? ==> InterpolateFlanks(flanks) == Some(a.interpolated))
    ensures DecodesTo(samples, cfg, env) ==> a.Decoded?
  {
    match DetectThresholds(Intensities(samples), cfg.thresholdMarginFactor, env.binByDouble)
    case None => NoThresholds
    case Some(th) =>
      var flanks := FlanksWith(samples, th, env);
      if |StopIndices(flanks)| < 2 then TooFewStops(th) else Interpolate(th, flanks)
  }

  /** The last two checks of `identify`, once two Stop flanks are found. */
  function Interpolate(th: Thresholds, flanks: seq<Flank>): (a: Attempt)
    requires |StopIndices(flanks)| >= 2
    ensures a.NeverReturns? || a.TooFewBits? || a.Decoded?
    ensures a.th == th
    ensures a.NeverReturns? <==> InterpolateFlanks(flanks).None?
    ensures a.TooFewBits? <==> InterpolateFlanks(flanks).Some? && |InterpolateFlanks(flanks).value| < 7
    ensures a.Decoded? ==> InterpolateFlanks(flanks) == Some(a.interpolated) && |a.interpolated| >= 7
  {
    match InterpolateFlanks(flanks)
    case None => NeverReturns(th)
    case Some(interpolated) =>
      if |interpolated| < 7 then TooFewBits(th) else Decoded(th, interpolated)
  }

  /** The object after a decode attempt ended as `a`: a failure, including
      an interpolation that never returns, keeps the identifier and the
      samples and goes back to Requested; a success assigns the identifier,
      clears the samples and marks the object Detected. Thresholds found are
      kept either way. */
  function Conclude(o: TactileObject, a: Attempt): (o': TactileObject)
    ensures o'.identification.phase == if a.Decoded? then Detected else Requested
    ensures a.Decoded? ==>
      o'.identifier == Identifier(a.interpolated) && o'.identification.samples == []
    ensures !a.Decoded? ==>
      o'.identifier == o.identifier && o'.identification.samples == o.identification.samples
    ensures o'.identification.thresholds == if a.NoThresholds? then o.identification.thresholds else a.th
    ensures o'.identification.samplingTimer == o.identification.samplingTimer
    ensures SameObject(o, o')
  {
    var id := o.identification;
    match a
    case NoThresholds => o.(identification := id.(phase := Requested))
    case Decoded(th, interpolated) =>
      o.(identifier := Identifier(interpolated),
         identification := id.(thresholds := th, samples := [], phase := Detected))
    case _ => o.(identification := id.(thresholds := a.th, phase := Requested))
  }

  /** `identify` as written: `None` when `interpolateFlanks` never returns
      normally. */
  function IdentifyAsWritten(o: TactileObject, cfg: Config, env: Collaborators): (r: Option<TactileObject>)
    requires |o.identification.samples| > 0
    ensures r.None? <==> Decode(o.identification.samples, cfg, env).NeverReturns?
  {
    var a := Decode(o.identification.samples, cfg, env);
    if a.NeverReturns? then None else Some(Conclude(o, a))
  }

  /** `identify`, with a non-returning interpolation treated as one more
      failed check. It agrees with the source whenever the source returns. */
  function Identify(o: TactileObject, cfg: Config, env: Collaborators): (o': TactileObject)
    requires |o.identification.samples| > 0
    ensures IdentifyAsWritten(o, cfg, env).Some? ==> IdentifyAsWritten(o, cfg, env).value == o'
    ensures o'.identification.phase == Requested || o'.identification.phase == Detected
    ensures o'.identification.phase == Detected
      <==> Decode(o.identification.samples, cfg, env).Decoded?
    ensures o'.identification.phase == Requested ==>
      o'.identifier == o.identifier && o'.identification.samples == o.identification.samples
    ensures o'.identification.phase == Detected ==>
      o'.identification.samples == [] && 0 <= o'.identifier < 256 &&
      o'.identifier == Identifier(Decode(o.identification.samples, cfg, env).interpolated)
    ensures o'.identification.thresholds ==
      match DetectThresholds(Intensities(o.identification.samples), cfg.thresholdMarginFactor, env.binByDouble)
      case None => o.identification.thresholds
      case Some(th) => th
    ensures o'.identification.samplingTimer == o.identification.samplingTimer
    ensures SameObject(o, o')
  {
    Conclude(o, Decode(o.identification.samples, cfg, env))
  }

  /** One frame of `recognizeObjectId` for one object, with the corrected
      `identify`. */
  function Tick(o: TactileObject, cfg: Config, env: Collaborators, clock: Readings): (o': TactileObject)
    requires Consistent(o)
    ensures Consistent(o')
    ensures SameObject(o, o')
    ensures o.identification.phase == Detected ==> o' == o
    ensures o.identification.phase == Requested ==>
      o'.identification.phase == Sampling && o'.identification.samples == [] &&
      o'.identification.samplingTimer == New(cfg.samplingTime, clock.reset) &&
      o'.identification.thresholds == o.identification.thresholds
    ensures o.identification.phase == Sampling ==>
      o'.identification.samples == o.identification.samples + [Sample(o.intensity, o.timestamp)] &&
      o'.identification.samplingTimer == New(o.identification.samplingTimer.duration, clock.reset) &&
      o'.identification.thresholds == o.identification.thresholds &&
      (o'.identification.phase == Identifying <==>
        clock.check - o.identification.samplingTimer.timestamp >= o.identification.samplingTimer.duration) &&
      (o'.identification.phase == Sampling || o'.identification.phase == Identifying)
    ensures o.identification.phase == Identifying ==> o' == Identify(o, cfg, env)
    ensures o.identification.phase == Identifying ==>
      o'.identification.phase == Requested || o'.identification.phase == Detected
    ensures o'.identifier != o.identifier ==>
      o.identification.phase == Identifying && o'.identification.phase == Detected
  {
    match o.identification.phase
    case Requested => Start(o, cfg, clock.reset)
    case Sampling => TakeSample(o, clock)
    case Identifying => Identify(o, cfg, env)
    case Detected => o
  }

  /** One frame as written: `None` when the object is Identifying and
      `identify` never returns normally; otherwise the frame `Tick` takes. */
  function TickAsWritten(o: TactileObject, cfg: Config, env: Collaborators, clock: Readings)
    : (r: Option<TactileObject>)
    requires Consistent(o)
    ensures r.None? <==>
      o.identification.phase == Identifying && Decode(o.identification.samples, cfg, env).NeverReturns?
    ensures r.Some? ==> r.value == Tick(o, cfg, env, clock)
  {
    if o.identification.phase == Identifying then IdentifyAsWritten(o, cfg, env)
    else Some(Tick(o, cfg, env, clock))
  }

  /** `recognizeObjectId`: every object stepped once, independently, with
      the clock readings its own timer calls make. */
  function RecognizeObjectId(objects: seq<TactileObject>, cfg: Config, env: Collaborators,
                             clocks: seq<Readings>): (r: seq<TactileObject>)
    requires |clocks| == |objects|
    requires forall i :: 0 <= i < |objects| ==> Consistent(objects[i])
    ensures |r| == |objects|
    ensures forall i :: 0 <= i < |r| ==> Consistent(r[i])
    ensures forall i :: 0 <= i < |r| ==>
      objects[i].identification.phase == Detected ==> r[i] == objects[i]
    ensures forall i :: 0 <= i < |r| ==> r[i] == Tick(objects[i], cfg, env, clocks[i])
  {
    seq(|objects|, i requires 0 <= i < |objects| => Tick(objects[i], cfg, env, clocks[i]))
  }

  /** All of `rs`, when none of them is missing. */
  function AllPresent(rs: seq<Option<TactileObject>>): (r: Option<seq<TactileObject>>)
    ensures r.None? <==> exists i :: 0 <= i < |rs| && rs[i].None?
    ensures r.Some? ==> |r.value| == |rs| && forall i :: 0 <= i < |rs| ==> rs[i] == Some(r.value[i])
    decreases |rs|
  {
    if rs == [] then Some([])
    else
      match (rs[0], AllPresent(rs[1..]))
      case (Some(x), Some(rest)) => Some([x] + rest)
      case _ => None
  }

  /** `recognizeObjectId` as written: `objects.forEach` stops at the first
      object whose `identify` never returns normally, so the frame as a
      whole yields `None` exactly when some object's frame does. */
  function RecognizeObjectIdAsWritten(objects: seq<TactileObject>, cfg: Config, env: Collaborators,
                                      clocks: seq<Readings>): (r: Option<seq<TactileObject>>)
    requires |clocks| == |objects|
    requires forall i :: 0 <= i < |objects| ==> Consistent(objects[i])
    ensures r.None? <==> exists i :: 0 <= i < |objects| && TickAsWritten(objects[i], cfg, env, clocks[i]).None?
    ensures r.Some? ==> r.value == RecognizeObjectId(objects, cfg, env, clocks)
  {
    var rs := seq(|objects|, i requires 0 <= i < |objects| => TickAsWritten(objects[i], cfg, env, clocks[i]));
    assert forall i :: 0 <= i < |objects| ==> rs[i] == TickAsWritten(objects[i], cfg, env, clocks[i]);
    AllPresent(rs)
  }

  /** Starting from Requested, two frames put the object in Sampling or
      Identifying with exactly that second frame's sample buffered. */
  lemma RestartBuffersOneSample(o: TactileObject, o2: TactileObject, cfg: Config, env: Collaborators,
                                c1: Readings, c2: Readings)
    requires o.identification.phase == Requested
    requires o2 == Tick(o, cfg, env, c1).(intensity := o2.intensity, timestamp := o2.timestamp)
    ensures Tick(o2, cfg, env, c2).identification.samples == [Sample(o2.intensity, o2.timestamp)]
    ensures Tick(o2, cfg, env, c2).identification.phase == Identifying
      <==> c2.check - c1.reset >= cfg.samplingTime
  {
  }
}
