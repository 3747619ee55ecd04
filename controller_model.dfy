/** The controller (`singleservo`) as a state machine over values: the whole
    state that it and its two devices can change, and one transition function
    per operation. The class in `ServoControl` is proved to make exactly
    these transitions; the lemmas here state what the transitions promise. */
module ControllerModel {
  import opened CInt
  import opened ServoConfig
  import opened Hardware
  import opened Conversion
  import opened Sampling

  /** Offset of the two calibration excursions from the rest pulse. */
  const CALIB_RANGE: I16 := 0x160

  /** Everything an operation can change: the configuration record, the
      feedback flag, the last commanded pulse (0 before any), the last
      averaged reading, the actuator's attached flag and call log, and the
      number of sensor readings taken since construction. */
  datatype ServoState = ServoState(
    d: ServoData,
    hasFeedback: bool,
    lastSpos: U16,
    lastFpos: U16,
    attached: bool,
    log: seq<ActuatorEvent>,
    taken: nat)

  /** Every pulse command terminates, and the last commanded pulse is either
      the never-commanded sentinel 0 or a pulse accepted within the bounds. */
  predicate Valid(st: ServoState)
  {
    && Commandable(st.d)
    && (st.lastSpos != 0 ==> !st.d.isDisabled && InRange(st.lastSpos, st.d.sposMin, st.d.sposMax))
  }

  /** The state the constructors leave before `_init` runs. */
  function Fresh(init: ServoData): ServoState
  {
    ServoState(init, false, 0, 0, false, [], 0)
  }

  /** `get_fpos(n)`: `n` more readings, whose truncated mean is stored. */
  function Sampled(st: ServoState, feed: Feed, n: nat): (r: ServoState)
    requires 1 <= n
    ensures r.d == st.d && r.hasFeedback == st.hasFeedback && r.lastSpos == st.lastSpos
    ensures r.attached == st.attached && r.log == st.log
    ensures r.taken == st.taken + n
  {
    st.(taken := st.taken + n, lastFpos := SampleMean(feed, st.taken, n))
  }

  /** `wait_stable`: its result, and the readings it took. */
  function Waited(st: ServoState, feed: Feed): (r: (bool, ServoState))
    ensures r.0 ==> st.hasFeedback
    ensures r.1.d == st.d && r.1.hasFeedback == st.hasFeedback && r.1.lastSpos == st.lastSpos
    ensures r.1.attached == st.attached && r.1.log == st.log
    ensures !st.hasFeedback ==> r.1 == st
    ensures st.hasFeedback ==> st.taken + 8 <= r.1.taken <= st.taken + 8 * MAX_ITER
  {
    var w := WaitOutcome(st.hasFeedback, feed, st.taken, st.lastFpos);
    (w.ok, st.(taken := w.taken, lastFpos := w.fpos))
  }

  /** `detach`: release the actuator if it is attached. */
  function Released(st: ServoState): (r: ServoState)
    ensures !r.attached
    ensures r.d == st.d && r.lastSpos == st.lastSpos && r.taken == st.taken
  {
    if st.attached then st.(attached := false, log := st.log + [Detached]) else st
  }

  /** The pulse an accepted command for `p` finally writes: `p` itself when
      in range, otherwise the nearer bound. */
  function Applied(d: ServoData, p: int): (q: U16)
    requires d.sposMin <= d.sposMax
    ensures InRange(q, d.sposMin, d.sposMax)
    ensures InRange(p, d.sposMin, d.sposMax) ==> q == p
  {
    Clamp(p, d.sposMin, d.sposMax)
  }

  /** No pulse within the bounds is nearer to the command than the pulse
      written for it. */
  lemma AppliedIsNearest(d: ServoData, p: int, other: int)
    requires d.sposMin <= d.sposMax && InRange(other, d.sposMin, d.sposMax)
    ensures Distance(p, Applied(d, p)) <= Distance(p, other)
  {
    ClampIsNearest(p, d.sposMin, d.sposMax, other);
  }

  /** What one written pulse does to the actuator: attach first if it was
      detached, then write. */
  function CommandLog(d: ServoData, wasAttached: bool, q: U16): seq<ActuatorEvent>
  {
    (if wasAttached then [] else [Attached(d.signalPin, d.sposMin, d.sposMax)]) + [Wrote(q)]
  }

  /** The state once a command for `p` has been written and before any
      settle-wait: nothing changes on a disabled servo; otherwise the pulse
      (the nearer bound when `p` is out of range) is written and recorded. */
  function Commanded(st: ServoState, p: int): (r: ServoState)
    requires Commandable(st.d)
    ensures r.d == st.d && r.hasFeedback == st.hasFeedback
    ensures r.taken == st.taken && r.lastFpos == st.lastFpos
    ensures Valid(st) ==> Valid(r)
  {
    if st.d.isDisabled then st
    else
      var q := Applied(st.d, p);
      st.(lastSpos := q, attached := true, log := st.log + CommandLog(st.d, st.attached, q))
  }

  /** `set_spos(p, doWaitStable)`: a disabled servo refuses; otherwise the
      pulse (re-issued at the nearer bound when out of range) is written,
      recorded, and settled if asked. The command succeeds iff `p` was in
      range and the settle-wait, if any, succeeded. */
  function Command(st: ServoState, feed: Feed, p: int, doWaitStable: bool): (r: (bool, ServoState))
    requires Commandable(st.d)
    ensures r.1.d == st.d && r.1.hasFeedback == st.hasFeedback
    ensures Valid(st) ==> Valid(r.1)
  {
    if st.d.isDisabled then (false, st)
    else if doWaitStable then
      var settled := Waited(Commanded(st, p), feed);
      (InRange(p, st.d.sposMin, st.d.sposMax) && settled.0, settled.1)
    else
      (InRange(p, st.d.sposMin, st.d.sposMax), Commanded(st, p))
  }

  /** `_init`: average eight readings to probe for a wired sensor, command
      the rest pulse with settle-wait, and release the actuator. */
  function Started(init: ServoData, feed: Feed): (st: ServoState)
    requires Commandable(init)
    ensures Valid(st) && !st.attached && st.d == init
  {
    var probed := Sampled(Fresh(init), feed, PROBE_SAMPLES);
    var sensed := probed.(hasFeedback := probed.lastFpos >= NC_TH);
    Released(Command(sensed, feed, init.sposZero, true).1)
  }

  /** `set_dpos`: degrees above 180 are refused with no effect; otherwise
      the degree is mapped onto the pulse bounds and commanded. */
  function DegreeCommand(st: ServoState, feed: Feed, dpos: U8, doWaitStable: bool): (r: (bool, ServoState))
    requires Commandable(st.d)
    ensures dpos > 180 ==> r == (false, st)
    ensures r.1.d == st.d && r.1.hasFeedback == st.hasFeedback
    ensures Valid(st) ==> Valid(r.1)
  {
    if dpos > 180 then (false, st)
    else Command(st, feed, Wrap16(DegreeToPulse(dpos, st.d.sposMin, st.d.sposMax)), doWaitStable)
  }

  /** `get_spos`: the last commanded pulse without feedback, otherwise an
      averaged reading converted through the feedback anchors. */
  function Position(st: ServoState, feed: Feed): (r: (U16, ServoState))
    requires st.hasFeedback ==> st.d.fposMin != st.d.fposMax
    ensures r.1.d == st.d && r.1.hasFeedback == st.hasFeedback && r.1.lastSpos == st.lastSpos
    ensures r.1.attached == st.attached && r.1.log == st.log
    ensures r.1.taken == st.taken + (if st.hasFeedback then DEFAULT_SAMPLES else 0)
    ensures !st.hasFeedback ==> r == (st.lastSpos, st)
  {
    if !st.hasFeedback then (st.lastSpos, st)
    else
      var read := Sampled(st, feed, DEFAULT_SAMPLES);
      (FeedbackToPulse(st.d, read.lastFpos), read)
  }

  /** `get_rpos`: zero until calibrated, otherwise the reported pulse as an
      offset from the rest pulse. */
  function RelativePosition(st: ServoState, feed: Feed): (r: (I16, ServoState))
    requires st.hasFeedback && st.d.isCalibrated ==> st.d.fposMin != st.d.fposMax
    ensures r.1.d == st.d && r.1.hasFeedback == st.hasFeedback && r.1.lastSpos == st.lastSpos
    ensures r.1.attached == st.attached && r.1.log == st.log
    ensures r.1.taken == st.taken + (if st.hasFeedback && st.d.isCalibrated then DEFAULT_SAMPLES else 0)
    ensures !st.d.isCalibrated ==> r == (0, st)
    ensures st.d.isCalibrated && !st.hasFeedback ==> r.0 == PulseToRelative(st.d, st.lastSpos)
  {
    if !st.d.isCalibrated then (0, st)
    else
      var pos := Position(st, feed);
      (PulseToRelative(st.d, pos.0), pos.1)
  }

  /** The pulses the zero search writes in its first `n` polls. */
  function SearchWrites(d: ServoData, feed: Feed, s: nat, wanted: U16, c0: U16, n: nat): seq<ActuatorEvent>
    requires d.sposMin <= d.sposMax
  {
    if n == 0 then []
    else SearchWrites(d, feed, s, wanted, c0, n - 1) + [Wrote(Applied(d, Candidate(feed, s, wanted, c0, n - 1)))]
  }

  /** The actuator calls of a zero search of `n` polls: none on a disabled
      servo, otherwise an attach if needed and one write per poll. */
  function SearchLog(d: ServoData, wasAttached: bool, feed: Feed, s: nat, wanted: U16, c0: U16, n: nat): seq<ActuatorEvent>
    requires Commandable(d)
  {
    if d.isDisabled || n == 0 then []
    else (if wasAttached then [] else [Attached(d.signalPin, d.sposMin, d.sposMax)])
         + SearchWrites(d, feed, s, wanted, c0, n)
  }

  /** The state after the first `n` polls of the zero search started in
      `st`, whose first poll reads from read number `s`: each poll commands
      its candidate without waiting and takes one averaged reading. */
  function Polled(st: ServoState, feed: Feed, s: nat, wanted: U16, c0: U16, n: nat): (r: ServoState)
    requires Commandable(st.d)
    decreases n
    ensures r.d == st.d && r.hasFeedback == st.hasFeedback
    ensures Valid(st) ==> Valid(r)
  {
    if n == 0 then st
    else
      var before := Polled(st, feed, s, wanted, c0, n - 1);
      Sampled(Commanded(before, Candidate(feed, s, wanted, c0, n - 1)), feed, DEFAULT_SAMPLES)
  }

  /** One more poll of the zero search. */
  lemma PolledStep(st: ServoState, feed: Feed, s: nat, wanted: U16, c0: U16, n: nat)
    requires Commandable(st.d)
    ensures Polled(st, feed, s, wanted, c0, n + 1)
         == Sampled(Commanded(Polled(st, feed, s, wanted, c0, n), Candidate(feed, s, wanted, c0, n)), feed, DEFAULT_SAMPLES)
  {
  }

  /** `set_zero_pos_current`. Without feedback it succeeds iff a pulse was
      ever commanded, re-commanding that pulse. With feedback the target is
      the first averaged reading and the search starts from the last pulse
      (or the rest pulse if none); only a search that converged commits the
      candidate and the target as the new rest point. */
  function ZeroPoint(st: ServoState, feed: Feed): (r: (bool, ServoState))
    requires Valid(st)
    ensures Valid(r.1) && r.1.hasFeedback == st.hasFeedback
  {
    if !st.hasFeedback then
      if st.lastSpos == 0 then (false, st) else (true, Commanded(st, st.lastSpos))
    else
      var probed := Sampled(st, feed, DEFAULT_SAMPLES);
      Searched(probed, feed, probed.lastFpos, if st.lastSpos > 0 then st.lastSpos else st.d.sposZero)
  }

  /** The poll loop of `set_zero_pos_current` from `st`, for the target
      reading `wanted` and the first candidate `c0`: the polls the search
      makes, and, only when it converged, the candidate and the target
      committed as the new rest point. */
  function Searched(st: ServoState, feed: Feed, wanted: U16, c0: U16): (r: (bool, ServoState))
    requires Commandable(st.d)
    ensures r.1.hasFeedback == st.hasFeedback
    ensures Valid(st) ==> Valid(r.1)
  {
    var z := ZeroSearch(feed, st.taken, wanted, c0);
    var polled := Polled(st, feed, st.taken, wanted, c0, z.polls);
    if z.converged then (true, polled.(d := polled.d.(sposZero := z.candidate, fposZero := wanted)))
    else (false, polled)
  }

  /** `_approx_border` as `calibrate` applies it: the unsigned pulses and
      readings are passed as `int16_t` and the estimate is stored back as
      `uint16_t`. When the excursion pulse equals the rest pulse the
      division has no divisor and the stored anchor is kept. */
  function BorderEstimate(current: U16, zeroSpos: U16, sampledSpos: U16, borderSpos: U16,
                          zeroFpos: U16, sampledFpos: U16): (r: U16)
    ensures sampledSpos == zeroSpos ==> r == current
    ensures sampledSpos != zeroSpos ==>
              ToInt16(r) == ApproxBorder(ToInt16(zeroSpos), ToInt16(sampledSpos), ToInt16(borderSpos),
                                         ToInt16(zeroFpos), ToInt16(sampledFpos))
  {
    Int16OfU16(zeroSpos);
    Int16OfU16(sampledSpos);
    if ToInt16(sampledSpos) == ToInt16(zeroSpos) then current
    else
      var e := ApproxBorder(ToInt16(zeroSpos), ToInt16(sampledSpos), ToInt16(borderSpos),
                            ToInt16(zeroFpos), ToInt16(sampledFpos));
      Int16RoundTrip(e);
      Wrap16(e)
  }

  /** One calibration excursion: command the offset `r` with settle-wait,
      take an averaged reading, and re-estimate the feedback anchor of the
      lower (`towardMin`) or the upper pulse bound from the pulse and the
      reading. */
  function Excursion(st: ServoState, feed: Feed, r: I16, towardMin: bool): (e: ServoState)
    requires Valid(st)
    ensures Valid(e) && e.hasFeedback == st.hasFeedback
  {
    var moved := Command(st, feed, RelativeToPulse(st.d, r), true).1;
    var read := Sampled(moved, feed, DEFAULT_SAMPLES);
    var d := read.d;
    if towardMin then
      read.(d := d.(fposMin := BorderEstimate(d.fposMin, d.sposZero, read.lastSpos, d.sposMin, d.fposZero, read.lastFpos)))
    else
      read.(d := d.(fposMax := BorderEstimate(d.fposMax, d.sposZero, read.lastSpos, d.sposMax, d.fposZero, read.lastFpos)))
  }

  /** The part of `calibrate` after the rest point was found: the
      clockwise and the counter-clockwise excursion, the return to the rest
      point, and the calibrated mark, whatever the excursions reported. */
  function Calibrated(st: ServoState, feed: Feed): (r: ServoState)
    requires Valid(st)
    ensures Valid(r) && r.hasFeedback == st.hasFeedback
  {
    var cw := Excursion(st, feed, CALIB_RANGE, true);
    var ccw := Excursion(cw, feed, -CALIB_RANGE, false);
    var back := Commanded(ccw, RelativeToPulse(ccw.d, 0));
    back.(d := back.d.(isCalibrated := true))
  }

  /** `calibrate`: find the rest point and stop if that fails; otherwise
      measure both borders and mark the servo calibrated. */
  function Calibration(st: ServoState, feed: Feed): (r: (bool, ServoState))
    requires Valid(st)
    ensures Valid(r.1) && r.1.hasFeedback == st.hasFeedback
  {
    var zeroed := ZeroPoint(st, feed);
    if !zeroed.0 then (false, zeroed.1)
    else (true, Calibrated(zeroed.1, feed))
  }
}
