/** The configuration record of one servo (`singleservo_data`): the two pins,
    the three mode flags, the pulse-width bounds and rest point, and the
    feedback anchors that calibration fills in. */
module ServoConfig {
  import opened CInt

  /** Factory pulse-width bounds, in microseconds. */
  const SPOS_MIN: U16 := 500
  const SPOS_MAX: U16 := 2500

  datatype ServoData = ServoData(
    signalPin: U8,
    feedbackPin: U8,
    isCalibrated: bool,
    isClockwise: bool,
    isDisabled: bool,
    sposZero: U16,
    sposMin: U16,
    sposMax: U16,
    fposZero: U16,
    fposMin: U16,
    fposMax: U16)

  /** The record as its default member initialisers leave it, given the
      two pins the short constructor assigns. */
  function Defaults(signalPin: U8, feedbackPin: U8): (d: ServoData)
    ensures d.signalPin == signalPin && d.feedbackPin == feedbackPin
    ensures !d.isCalibrated && d.isClockwise && !d.isDisabled
    ensures d.sposMin == SPOS_MIN && d.sposMax == SPOS_MAX
    ensures PulseBoundsOrdered(d) && d.sposMin < d.sposZero < d.sposMax
    ensures d.fposMin <= d.fposZero <= d.fposMax && d.fposMin != d.fposMax
    ensures Commandable(d)
  {
    ServoData(signalPin, feedbackPin, false, true, false,
              1500, SPOS_MIN, SPOS_MAX, 511, 0, 1023)
  }

  predicate PulseBoundsOrdered(d: ServoData)
  {
    d.sposMin <= d.sposZero <= d.sposMax
  }

  /** A pulse command terminates: `set_spos` re-issues an out-of-range
      command at the nearer bound, which is in range only when
      `spos_min <= spos_max`; a disabled servo refuses before that. */
  predicate Commandable(d: ServoData)
  {
    d.isDisabled || d.sposMin <= d.sposMax
  }
}
