/** What the transitions of `ControllerModel` promise: when a command
    succeeds and what it writes, what the rest-point search commits, what
    calibration leaves behind, and how start-up probes the sensor. */
module ControllerFacts {
  import opened CInt
  import opened ServoConfig
  import opened Hardware
  import opened Conversion
  import opened Sampling
  import opened ControllerModel

  /** `set_spos`: a disabled servo refuses and changes nothing; otherwise
      the written pulse is the command itself or the nearer bound, the
      actuator is attached and logs (an attach if needed and) the write, and
      the command succeeds iff it was in range and, when a settle-wait was
      asked for, the sensor is wired and settled within its budget. */
  lemma CommandFacts(st: ServoState, feed: Feed, p: int, doWaitStable: bool)
    requires Commandable(st.d)
    ensures var r := Command(st, feed, p, doWaitStable);
            && (st.d.isDisabled ==> r == (false, st))
            && (!st.d.isDisabled ==>
                  && r.1.lastSpos == Applied(st.d, p)
                  && r.1.attached
                  && r.1.log == st.log + CommandLog(st.d, st.attached, Applied(st.d, p))
                  && (r.0 <==> InRange(p, st.d.sposMin, st.d.sposMax)
                               && (doWaitStable ==> st.hasFeedback && Settle(feed, st.taken).ok))
                  && r.1.taken == (if doWaitStable && st.hasFeedback then Settle(feed, st.taken).taken else st.taken))
  {
  }

  /** `set_dpos`: a degree above 180 is refused with no effect; any other
      degree commands its pulse on the degree scale, which is always in
      range, so without a settle-wait an enabled servo always succeeds, and
      0 and 180 degrees write exactly the two pulse bounds. */
  lemma DegreeCommandFacts(st: ServoState, feed: Feed, dpos: U8, doWaitStable: bool)
    requires Commandable(st.d)
    ensures var r := DegreeCommand(st, feed, dpos, doWaitStable);
            && (dpos > 180 ==> r == (false, st))
            && (dpos <= 180 && !st.d.isDisabled ==>
                  && r.1.lastSpos == DegreeToPulse(dpos, st.d.sposMin, st.d.sposMax)
                  && (!doWaitStable ==> r.0)
                  && (dpos == 0 ==> r.1.lastSpos == st.d.sposMin)
                  && (dpos == 180 ==> r.1.lastSpos == st.d.sposMax))
  {
    if dpos <= 180 && !st.d.isDisabled {
      var p := DegreeToPulse(dpos, st.d.sposMin, st.d.sposMax);
      assert Wrap16(p) == p;
      DegreeEndpoints(st.d.sposMin, st.d.sposMax);
      CommandFacts(st, feed, p, doWaitStable);
    }
  }

  /** A relative command on a servo without feedback is read back by
      `get_rpos` as the offset that was commanded, whenever its pulse is in
      range: the pulse and offset conversions are inverse. */
  lemma RelativeReadBack(st: ServoState, feed: Feed, r: I16, doWaitStable: bool)
    requires Commandable(st.d) && !st.hasFeedback && st.d.isCalibrated && !st.d.isDisabled
    requires InRange(RelativeToPulse(st.d, r), st.d.sposMin, st.d.sposMax)
    ensures RelativePosition(Command(st, feed, RelativeToPulse(st.d, r), doWaitStable).1, feed).0 == r
  {
    CommandFacts(st, feed, RelativeToPulse(st.d, r), doWaitStable);
    RelativeRoundTrip(st.d, r);
  }

  /** `get_spos`: without feedback the last commanded pulse is reported
      and no reading is taken; with feedback one averaged reading of four
      samples is taken and converted, so a reading at either feedback anchor
      reports that pulse bound, and a reading between the anchors, in either
      order, a pulse within the bounds. */
  lemma PositionFacts(st: ServoState, feed: Feed)
    requires st.hasFeedback ==> st.d.fposMin != st.d.fposMax
    ensures var r := Position(st, feed);
            && (!st.hasFeedback ==> r == (st.lastSpos, st))
            && (st.hasFeedback ==>
                  && r.1 == st.(taken := st.taken + 4, lastFpos := SampleMean(feed, st.taken, 4))
                  && (r.1.lastFpos == st.d.fposMin ==> r.0 == st.d.sposMin)
                  && (r.1.lastFpos == st.d.fposMax ==> r.0 == st.d.sposMax)
                  && ((st.d.fposMin <= r.1.lastFpos <= st.d.fposMax || st.d.fposMax <= r.1.lastFpos <= st.d.fposMin)
                      && st.d.sposMin <= st.d.sposMax
                      ==> st.d.sposMin <= r.0 <= st.d.sposMax))
  {
  }

  /** `get_rpos` on an uncalibrated servo is 0 and reads nothing, whatever
      its feedback anchors. */
  lemma UncalibratedOffsetIsZero(st: ServoState, feed: Feed)
    requires !st.d.isCalibrated
    ensures RelativePosition(st, feed) == (0, st)
  {
  }

  /** The actuator log of a zero search grows by one command per poll. */
  lemma SearchLogStep(d: ServoData, wasAttached: bool, feed: Feed, s: nat, wanted: U16, c0: U16, j: nat)
    requires Commandable(d)
    ensures SearchLog(d, wasAttached, feed, s, wanted, c0, j + 1) ==
            if d.isDisabled then SearchLog(d, wasAttached, feed, s, wanted, c0, j)
            else SearchLog(d, wasAttached, feed, s, wanted, c0, j)
                 + CommandLog(d, wasAttached || j > 0, Applied(d, Candidate(feed, s, wanted, c0, j)))
  {
    if !d.isDisabled && j > 0 {
      var attach: seq<ActuatorEvent> := if wasAttached then [] else [Attached(d.signalPin, d.sposMin, d.sposMax)];
      var w := Wrote(Applied(d, Candidate(feed, s, wanted, c0, j)));
      assert attach + (SearchWrites(d, feed, s, wanted, c0, j) + [w])
          == (attach + SearchWrites(d, feed, s, wanted, c0, j)) + [w];
    }
  }

  /** After `n` polls of the zero search whose first poll reads from read
      number `s`, four readings were taken per poll and the stored reading
      is that of the last poll. */
  lemma {:induction false} PolledReadings(st: ServoState, feed: Feed, s: nat, wanted: U16, c0: U16, n: nat)
    requires Commandable(st.d) && st.taken == s
    decreases n
    ensures Polled(st, feed, s, wanted, c0, n).taken == s + 4 * n
    ensures n > 0 ==> Polled(st, feed, s, wanted, c0, n).lastFpos == SampleMean(feed, s + 4 * (n - 1), DEFAULT_SAMPLES)
  {
    if n > 0 {
      PolledReadings(st, feed, s, wanted, c0, n - 1);
    }
  }

  /** After `n > 0` polls of the zero search on an enabled servo the
      actuator is attached and the last pulse written is the last poll's
      candidate (or its nearer bound); a disabled servo writes nothing. */
  lemma {:induction false} PolledCommands(st: ServoState, feed: Feed, s: nat, wanted: U16, c0: U16, n: nat)
    requires Commandable(st.d)
    decreases n
    ensures var r := Polled(st, feed, s, wanted, c0, n);
            && (n > 0 && !st.d.isDisabled ==>
                  r.attached && r.lastSpos == Applied(st.d, Candidate(feed, s, wanted, c0, n - 1)))
            && (st.d.isDisabled || n == 0 ==> r.lastSpos == st.lastSpos && r.attached == st.attached)
  {
    if n > 0 {
      PolledCommands(st, feed, s, wanted, c0, n - 1);
    }
  }

  /** One more poll's command extends the search log by that poll's
      write, given the actuator is attached once any poll has run. */
  lemma CommandedExtendsSearchLog(st: ServoState, before: ServoState, feed: Feed, s: nat, wanted: U16, c0: U16, j: nat)
    requires Commandable(st.d) && before.d == st.d
    requires before.log == st.log + SearchLog(st.d, st.attached, feed, s, wanted, c0, j)
    requires !st.d.isDisabled ==> before.attached == (st.attached || j > 0)
    ensures Commanded(before, Candidate(feed, s, wanted, c0, j)).log
            == st.log + SearchLog(st.d, st.attached, feed, s, wanted, c0, j + 1)
  {
    SearchLogStep(st.d, st.attached, feed, s, wanted, c0, j);
    if !st.d.isDisabled {
      var prefix := SearchLog(st.d, st.attached, feed, s, wanted, c0, j);
      var step := CommandLog(st.d, before.attached, Applied(st.d, Candidate(feed, s, wanted, c0, j)));
      assert (st.log + prefix) + step == st.log + (prefix + step);
    }
  }

  /** When the last of `n` polls read the target, the reading stored
      after them is the target. */
  lemma PolledLanding(st: ServoState, feed: Feed, s: nat, wanted: U16, c0: U16, n: nat)
    requires Commandable(st.d) && st.taken == s
    requires 0 < n && MatchesAt(feed, s, wanted, n - 1)
    ensures Polled(st, feed, s, wanted, c0, n).lastFpos == wanted
  {
    PolledReadings(st, feed, s, wanted, c0, n);
  }

  lemma LogOfNextPoll(st: ServoState, feed: Feed, s: nat, wanted: U16, c0: U16, n: nat)
    requires Commandable(st.d) && n > 0
    ensures Polled(st, feed, s, wanted, c0, n).log
         == Commanded(Polled(st, feed, s, wanted, c0, n - 1), Candidate(feed, s, wanted, c0, n - 1)).log
  {
  }

  /** The actuator log of `n` polls of the zero search holds an attach if
      needed and one write per poll. */
  lemma {:induction false} PolledLog(st: ServoState, feed: Feed, s: nat, wanted: U16, c0: U16, n: nat)
    requires Commandable(st.d)
    decreases n
    ensures Polled(st, feed, s, wanted, c0, n).log == st.log + SearchLog(st.d, st.attached, feed, s, wanted, c0, n)
  {
    if n > 0 {
      PolledLog(st, feed, s, wanted, c0, n - 1);
      PolledLogStep(st, feed, s, wanted, c0, n);
    }
  }

  lemma PolledLogStep(st: ServoState, feed: Feed, s: nat, wanted: U16, c0: U16, n: nat)
    requires Commandable(st.d) && n > 0
    requires Polled(st, feed, s, wanted, c0, n - 1).log == st.log + SearchLog(st.d, st.attached, feed, s, wanted, c0, n - 1)
    ensures Polled(st, feed, s, wanted, c0, n).log == st.log + SearchLog(st.d, st.attached, feed, s, wanted, c0, n)
  {
    var before := Polled(st, feed, s, wanted, c0, n - 1);
    PolledCommands(st, feed, s, wanted, c0, n - 1);
    LogOfNextPoll(st, feed, s, wanted, c0, n);
    assert before.d == st.d;
    assert before.log == st.log + SearchLog(st.d, st.attached, feed, s, wanted, c0, n - 1);
    assert !st.d.isDisabled ==> before.attached == (st.attached || n - 1 > 0);
    CommandedExtendsSearchLog(st, before, feed, s, wanted, c0, n - 1);
  }

  /** `set_zero_pos_current` without feedback succeeds iff a pulse was ever
      commanded; it re-commands that pulse, takes no reading and leaves the
      configuration as it was. */
  lemma ZeroPointWithoutFeedback(st: ServoState, feed: Feed)
    requires Valid(st) && !st.hasFeedback
    ensures var r := ZeroPoint(st, feed);
            && (r.0 <==> st.lastSpos != 0)
            && r.1.d == st.d && r.1.taken == st.taken && r.1.lastSpos == st.lastSpos
  {
  }

  /** The search from `st` succeeds iff one of its `MAX_ITER` polls, the
      first reading from read number `s`, reads exactly the target. */
  lemma SearchedConvergesIff(st: ServoState, feed: Feed, s: nat, wanted: U16, c0: U16)
    requires Commandable(st.d) && s == st.taken
    ensures Searched(st, feed, wanted, c0).0 <==> exists j: nat :: j < MAX_ITER && MatchesAt(feed, s, wanted, j)
  {
    ZeroSearchConvergesIff(feed, s, wanted, c0);
  }

  /** A successful search commits its target as `fpos_zero`, agreeing with
      the reading last stored, and its last candidate as `spos_zero`; no
      other field of the configuration changes. */
  lemma SearchedCommitsTarget(st: ServoState, feed: Feed, wanted: U16, c0: U16)
    requires Commandable(st.d)
    ensures var r := Searched(st, feed, wanted, c0);
            r.0 ==>
              && r.1.d == st.d.(sposZero := r.1.d.sposZero, fposZero := wanted)
              && r.1.lastFpos == wanted
  {
    var z := ZeroSearch(feed, st.taken, wanted, c0);
    if z.converged {
      assert MatchesAt(feed, st.taken, wanted, z.polls - 1) by {
        ZeroSearchConvergesIff(feed, st.taken, wanted, c0);
      }
      PolledLanding(st, feed, st.taken, wanted, c0, z.polls);
    }
  }

  /** The pulse a successful search last wrote is the rest pulse it
      commits, clamped to the pulse bounds; the committed rest pulse
      itself is not clamped. */
  lemma SearchedCommitsPulse(st: ServoState, feed: Feed, wanted: U16, c0: U16)
    requires Commandable(st.d) && !st.d.isDisabled
    ensures var r := Searched(st, feed, wanted, c0);
            r.0 ==> r.1.lastSpos == Applied(st.d, r.1.d.sposZero)
  {
    var z := ZeroSearch(feed, st.taken, wanted, c0);
    if z.converged {
      assert z.candidate == Candidate(feed, st.taken, wanted, c0, z.polls - 1);
      PolledCommands(st, feed, st.taken, wanted, c0, z.polls);
    }
  }

  /** A search that never reads its target keeps the configuration and
      spends all `MAX_ITER` polls. */
  lemma SearchedFailureKeeps(st: ServoState, feed: Feed, wanted: U16, c0: U16)
    requires Commandable(st.d)
    ensures var r := Searched(st, feed, wanted, c0);
            !r.0 ==> r.1.d == st.d && r.1.taken == st.taken + 4 * MAX_ITER
  {
    var z := ZeroSearch(feed, st.taken, wanted, c0);
    PolledReadings(st, feed, st.taken, wanted, c0, z.polls);
  }

  /** `set_zero_pos_current` with feedback takes the averaged reading
      `wanted` as its target and polls from read number `s` on. It succeeds
      iff one of its `MAX_ITER` polls reads exactly that target; it then
      commits the target as `fpos_zero`, agreeing with the reading last
      stored, and changes no other setting besides `spos_zero`, which (or
      whose nearer bound) is the pulse it last wrote. When it fails it
      keeps the configuration. */
  lemma ZeroPointWithFeedback(st: ServoState, feed: Feed, s: nat, wanted: U16)
    requires Valid(st) && st.hasFeedback
    requires s == st.taken + 4 && wanted == SampleMean(feed, st.taken, DEFAULT_SAMPLES)
    ensures var r := ZeroPoint(st, feed);
            && (r.0 <==> exists j: nat :: j < MAX_ITER && MatchesAt(feed, s, wanted, j))
            && (r.0 ==> r.1.d == st.d.(sposZero := r.1.d.sposZero, fposZero := wanted) && r.1.lastFpos == wanted)
            && (r.0 && !st.d.isDisabled ==> r.1.lastSpos == Applied(st.d, r.1.d.sposZero))
            && (!r.0 ==> r.1.d == st.d)
  {
    var probed := Sampled(st, feed, DEFAULT_SAMPLES);
    var c0 := if st.lastSpos > 0 then st.lastSpos else st.d.sposZero;
    SearchedConvergesIff(probed, feed, s, wanted, c0);
    SearchedCommitsTarget(probed, feed, wanted, c0);
    if !st.d.isDisabled {
      SearchedCommitsPulse(probed, feed, wanted, c0);
    }
    SearchedFailureKeeps(probed, feed, wanted, c0);
  }

  /** A search whose first poll already reads the target stops there:
      it commits its first candidate and the target, after one poll. */
  lemma SearchedAtOnce(st: ServoState, feed: Feed, wanted: U16, c0: U16)
    requires Commandable(st.d) && MatchesAt(feed, st.taken, wanted, 0)
    ensures var r := Searched(st, feed, wanted, c0);
            && r.0
            && r.1.d == st.d.(sposZero := c0, fposZero := wanted)
            && r.1.taken == st.taken + 4
  {
    ZeroSearchStoppedAt(feed, st.taken, wanted, c0, 0);
    PolledReadings(st, feed, st.taken, wanted, c0, 1);
  }

  /** With a sensor that holds still for the first two averaged readings,
      `set_zero_pos_current` converges on its first poll: the last pulse
      (or the configured rest pulse when none was commanded) becomes the
      rest pulse and the steady reading its feedback value. */
  lemma ZeroPointAtRest(st: ServoState, feed: Feed, v: Reading)
    requires Valid(st) && st.hasFeedback
    requires forall k :: st.taken <= k < st.taken + 8 ==> ReadAt(feed, k) == v
    ensures var r := ZeroPoint(st, feed);
            && r.0
            && r.1.d == st.d.(sposZero := if st.lastSpos > 0 then st.lastSpos else st.d.sposZero, fposZero := v)
            && r.1.taken == st.taken + 8
  {
    var c0 := if st.lastSpos > 0 then st.lastSpos else st.d.sposZero;
    var probed := Sampled(st, feed, DEFAULT_SAMPLES);
    MeanOfConstant(feed, st.taken, DEFAULT_SAMPLES, v);
    MeanOfConstant(feed, st.taken + 4, DEFAULT_SAMPLES, v);
    SearchedAtOnce(probed, feed, v, c0);
  }

  /** `calibrate` fails exactly when finding the rest point fails, and then
      leaves the state that search left. */
  lemma CalibrationFailsIff(st: ServoState, feed: Feed)
    requires Valid(st)
    ensures Calibration(st, feed).0 == ZeroPoint(st, feed).0
    ensures !Calibration(st, feed).0 ==> Calibration(st, feed).1 == ZeroPoint(st, feed).1
  {
  }

  /** One calibration excursion re-estimates only the feedback anchor of
      the bound it moved toward; the rest of the configuration is kept. */
  lemma ExcursionKeeps(st: ServoState, feed: Feed, r: I16, towardMin: bool)
    requires Valid(st)
    ensures var e := Excursion(st, feed, r, towardMin);
            && e.d == st.d.(fposMin := e.d.fposMin, fposMax := e.d.fposMax)
            && (towardMin ==> e.d.fposMax == st.d.fposMax)
            && (!towardMin ==> e.d.fposMin == st.d.fposMin)
  {
    var moved := Command(st, feed, RelativeToPulse(st.d, r), true).1;
    assert moved.d == st.d;
  }

  /** An enabled servo's command ends its actuator log with the write of
      the pulse it records. */
  lemma CommandedEndsWithWrite(st: ServoState, p: int)
    requires Commandable(st.d) && !st.d.isDisabled
    ensures var r := Commanded(st, p);
            |r.log| > 0 && r.log[|r.log| - 1] == Wrote(r.lastSpos) && r.lastSpos == Applied(st.d, p)
  {
    var q := Applied(st.d, p);
    var attach: seq<ActuatorEvent> := if st.attached then [] else [Attached(st.d.signalPin, st.d.sposMin, st.d.sposMax)];
    assert st.log + CommandLog(st.d, st.attached, q) == (st.log + attach) + [Wrote(q)];
  }

  /** Once the rest point is found, `calibrate` marks the servo
      calibrated, keeps the rest point and all pulse settings, re-estimates
      only the two feedback anchors, and ends by writing the rest pulse
      clamped to the pulse bounds. */
  lemma CalibratedKeeps(st: ServoState, feed: Feed)
    requires Valid(st)
    ensures var r := Calibrated(st, feed);
            && r.d == st.d.(isCalibrated := true, fposMin := r.d.fposMin, fposMax := r.d.fposMax)
            && (!st.d.isDisabled ==>
                  r.lastSpos == Applied(st.d, st.d.sposZero) && r.log[|r.log| - 1] == Wrote(r.lastSpos))
  {
    var cw := Excursion(st, feed, CALIB_RANGE, true);
    ExcursionKeeps(st, feed, CALIB_RANGE, true);
    var ccw := Excursion(cw, feed, -CALIB_RANGE, false);
    ExcursionKeeps(cw, feed, -CALIB_RANGE, false);
    assert RelativeToPulse(ccw.d, 0) == st.d.sposZero;
    if !st.d.isDisabled {
      CommandedEndsWithWrite(ccw, st.d.sposZero);
    }
  }

  /** `calibrate` succeeds iff finding the rest point succeeds; then the
      result is that of `CalibratedKeeps` from the rest point found. */
  lemma CalibrationResult(st: ServoState, feed: Feed)
    requires Valid(st)
    ensures var zeroed := ZeroPoint(st, feed).1;
            var r := Calibration(st, feed);
            r.0 ==>
              && r.1.d == zeroed.d.(isCalibrated := true, fposMin := r.1.d.fposMin, fposMax := r.1.d.fposMax)
              && (!zeroed.d.isDisabled ==>
                    r.1.lastSpos == Applied(zeroed.d, zeroed.d.sposZero)
                    && r.1.log[|r.1.log| - 1] == Wrote(r.1.lastSpos))
  {
    var zeroed := ZeroPoint(st, feed);
    if zeroed.0 {
      CalibratedKeeps(zeroed.1, feed);
    }
  }

  /** On a feedback line through the rest point and the sampled point, with
      all values below 2^15, the stored border anchor is the feedback value
      `f2` at the border pulse. */
  lemma BorderOnLine(current: U16, p0: U16, p1: U16, p2: U16, f0: U16, f1: U16, f2: U16)
    requires p0 < 0x8000 && p1 < 0x8000 && p2 < 0x8000 && f0 < 0x8000 && f1 < 0x8000 && f2 < 0x8000
    requires p1 != p0
    requires (f2 - f1) * (p1 - p0) == (f1 - f0) * (p2 - p1)
    requires Abs((f1 - f0) * (p2 - p1)) < 0x8000_0000
    ensures BorderEstimate(current, p0, p1, p2, f0, f1) == f2
  {
    ApproxBorderOnLine(p0, p1, p2, f0, f1, f2);
  }

  /** A feedback reading that did not move during an excursion collapses
      the estimated anchor onto the rest reading. */
  lemma FlatFeedbackCollapsesBorders(current: U16, zeroSpos: U16, sampledSpos: U16, borderSpos: U16, f: U16)
    requires sampledSpos != zeroSpos
    ensures BorderEstimate(current, zeroSpos, sampledSpos, borderSpos, f, f) == f
  {
    Int16OfU16(zeroSpos);
    Int16OfU16(sampledSpos);
    Int16OfU16(f);
    var zs: int, ss: int, bs: int, ff: int := ToInt16(zeroSpos), ToInt16(sampledSpos), ToInt16(borderSpos), ToInt16(f);
    assert ss != zs;
    assert (ff - ff) * (bs - ss) == 0;
    assert TruncDiv(ToInt32(0), ss - zs) == 0;
    assert ApproxBorder(zs, ss, bs, ff, ff) == ff;
  }

  /** `_init`: the sensor counts as wired iff the mean of the first eight
      readings reaches the threshold; an enabled servo is then commanded to
      its rest pulse, clamped to the pulse bounds (settling only when
      wired), and released, so the actuator log is an attach, that write
      and a detach. */
  lemma StartedFacts(init: ServoData, feed: Feed)
    requires Commandable(init)
    ensures var st := Started(init, feed);
            && (st.hasFeedback <==> SampleMean(feed, 0, PROBE_SAMPLES) >= NC_TH)
            && (init.isDisabled ==> st.log == [] && st.taken == PROBE_SAMPLES && st.lastSpos == 0)
            && (!init.isDisabled ==>
                  && st.lastSpos == Applied(init, init.sposZero)
                  && st.log == [Attached(init.signalPin, init.sposMin, init.sposMax), Wrote(st.lastSpos), Detached]
                  && st.taken == (if st.hasFeedback then Settle(feed, PROBE_SAMPLES).taken else PROBE_SAMPLES))
  {
    var probed := Sampled(Fresh(init), feed, PROBE_SAMPLES);
    var sensed := probed.(hasFeedback := probed.lastFpos >= NC_TH);
    CommandFacts(sensed, feed, init.sposZero, true);
  }
}
