/** The controller object (`singleservo`): the configuration record, the
    feedback flag, the last commanded pulse and the last averaged reading,
    driving one actuator and reading one sensor. Every method is proved to
    make the transition `ControllerModel` defines for it, on the state
    `State()` that it and its two devices hold. */
module ServoControl {
  import opened CInt
  import opened ServoConfig
  import opened Hardware
  import opened Conversion
  import opened Sampling
  import opened ControllerModel

  class SingleServo {
    var d: ServoData
    var hasFeedback: bool
    var lastSpos: U16
    var lastFpos: U16
    const servo: Actuator
    const sensor: Sensor

    /** The controller's state together with that of its devices. */
    ghost function State(): ServoState
      reads this, servo, sensor
    {
      ServoState(d, hasFeedback, lastSpos, lastFpos, servo.attached, servo.log, sensor.taken)
    }

    /** The long constructor: take the whole record, then start up. */
    constructor (init: ServoData, feed: Feed)
      requires Commandable(init)
      ensures sensor.feed == feed && State() == Started(init, feed)
    {
      d := init;
      hasFeedback := false;
      lastSpos := 0;
      lastFpos := 0;
      servo := new Actuator();
      sensor := new Sensor(feed);
      new;
      Init();
    }

    /** The short constructor: the default record with the two pins. */
    constructor FromPins(signalPin: U8, feedbackPin: U8, feed: Feed)
      ensures sensor.feed == feed && State() == Started(Defaults(signalPin, feedbackPin), feed)
    {
      d := Defaults(signalPin, feedbackPin);
      hasFeedback := false;
      lastSpos := 0;
      lastFpos := 0;
      servo := new Actuator();
      sensor := new Sensor(feed);
      new;
      Init();
    }

    /** `_init`: probe for a wired sensor, command the rest pulse with
        settle-wait, and release the actuator. */
    method Init()
      requires Commandable(d) && State() == Fresh(d)
      modifies this, servo, sensor
      ensures State() == Started(old(d), sensor.feed)
    {
      var probe := GetFpos(PROBE_SAMPLES);
      hasFeedback := probe >= NC_TH;
      var _ := SetSpos(d.sposZero, true);
      Detach();
    }

    /** `detach`: release the actuator if it is attached. */
    method Detach()
      modifies servo
      ensures State() == Released(old(State()))
    {
      if servo.attached {
        servo.Detach();
      }
    }

    /** `get_fpos(scount)`: sum `scount` readings in a wrapping `uint16_t`,
        store and return the truncated mean. The counter is an `int8_t`, so
        the count must stay below 128, and a zero count divides by zero. */
    method GetFpos(scount: U8) returns (f: U16)
      requires 1 <= scount <= 127
      modifies this, sensor
      ensures f == lastFpos && State() == Sampled(old(State()), sensor.feed, scount)
    {
      var samples: U16 := 0;
      var i := 0;
      while i < scount
        modifies sensor
        invariant 0 <= i <= scount
        invariant sensor.taken == old(sensor.taken) + i
        invariant samples == SampleSum(sensor.feed, old(sensor.taken), old(sensor.taken) + i)
      {
        var v := sensor.Read();
        samples := Wrap16(samples + v);
        i := i + 1;
      }
      lastFpos := samples / scount;
      f := lastFpos;
    }

    /** `wait_stable`: without feedback fail at once, reading nothing;
        otherwise run the settle poll loop. */
    method WaitStable() returns (ok: bool)
      modifies this, sensor
      ensures (ok, State()) == Waited(old(State()), sensor.feed)
    {
      if !hasFeedback {
        return false;
      }
      ok := SettleLoop();
    }

    /** The poll loop of `wait_stable`: poll two averaged readings at a time
        until they agree, at most `MAX_ITER` times, as `Settle` specifies. */
    method SettleLoop() returns (ok: bool)
      modifies this, sensor
      ensures Poll(ok, sensor.taken, lastFpos) == Settle(sensor.feed, old(sensor.taken))
      ensures d == old(d) && hasFeedback == old(hasFeedback) && lastSpos == old(lastSpos)
    {
      ghost var t := sensor.taken;
      var maxIterations: U16 := MAX_ITER + 1;
      maxIterations := maxIterations - 1;
      ghost var j: nat := 0;
      while maxIterations != 0
        invariant j + maxIterations == MAX_ITER
        invariant sensor.taken == t + 8 * j
        invariant UnsettledBefore(sensor.feed, t, j)
        invariant j > 0 ==> lastFpos == SampleMean(sensor.feed, t + 8 * j - 4, DEFAULT_SAMPLES)
        invariant d == old(d) && hasFeedback == old(hasFeedback) && lastSpos == old(lastSpos)
      {
        var stable := SettlePoll(t, j);
        if stable {
          // The budget is not used up at the break.
          SettleStoppedAt(sensor.feed, t, j);
          return true;
        }
        j := j + 1;
        maxIterations := maxIterations - 1;
      }
      SettleExhausted(sensor.feed, t);
      ok := false;
    }

    /** Poll `j` of `wait_stable`, which started at read number `t`: two
        averaged readings, which agree iff the poll settled. */
    method SettlePoll(ghost t: nat, ghost j: nat) returns (stable: bool)
      requires sensor.taken == t + 8 * j
      modifies this, sensor
      ensures sensor.taken == t + 8 * (j + 1)
      ensures stable == SettledAt(sensor.feed, t, j)
      ensures lastFpos == SampleMean(sensor.feed, t + 8 * j + 4, DEFAULT_SAMPLES)
      ensures d == old(d) && hasFeedback == old(hasFeedback) && lastSpos == old(lastSpos)
    {
      var prevFpos := GetFpos(DEFAULT_SAMPLES);
      var _ := GetFpos(DEFAULT_SAMPLES);
      stable := prevFpos == lastFpos;
    }

    /** `set_spos`: refuse when disabled; re-issue an out-of-range command at
        the nearer bound and report failure; otherwise attach if needed,
        write, record, and settle if asked. */
    method SetSpos(p: U16, doWaitStable: bool) returns (ok: bool)
      requires Commandable(d)
      modifies this, servo, sensor
      decreases if InRange(p, d.sposMin, d.sposMax) then 0 else 1
      ensures (ok, State()) == Command(old(State()), sensor.feed, p, doWaitStable)
    {
      if d.isDisabled {
        return false;
      }
      if p < d.sposMin {
        var _ := SetSpos(d.sposMin, doWaitStable);
        return false;
      }
      if p > d.sposMax {
        var _ := SetSpos(d.sposMax, doWaitStable);
        return false;
      }
      if !servo.attached {
        servo.Attach(d.signalPin, d.sposMin, d.sposMax);
      }
      servo.WriteMicroseconds(p);
      lastSpos := p;
      assert servo.log == old(servo.log) + CommandLog(d, old(servo.attached), p);
      if doWaitStable {
        ok := WaitStable();
      } else {
        ok := true;
      }
    }

    /** `set_dpos`: degrees above 180 are refused without any effect;
        otherwise the degree is mapped onto the pulse bounds and
        commanded. */
    method SetDpos(dpos: U8, doWaitStable: bool) returns (ok: bool)
      requires Commandable(d)
      modifies this, servo, sensor
      ensures (ok, State()) == DegreeCommand(old(State()), sensor.feed, dpos, doWaitStable)
    {
      if dpos > 180 {
        return false;
      }
      ok := SetSpos(Wrap16(DegreeToPulse(dpos, d.sposMin, d.sposMax)), doWaitStable);
    }

    /** `set_rpos`: an offset from the rest pulse, negated on a clockwise
        servo, commanded as a pulse. */
    method SetRpos(r: I16, doWaitStable: bool) returns (ok: bool)
      requires Commandable(d)
      modifies this, servo, sensor
      ensures (ok, State()) == Command(old(State()), sensor.feed, RelativeToPulse(old(d), r), doWaitStable)
    {
      var rpos: I16 := r;
      if d.isClockwise {
        rpos := ToInt16(r as int * -1);
      }
      ok := SetSpos(Wrap16(d.sposZero + rpos), doWaitStable);
    }

    /** `get_spos`: the last commanded pulse without feedback, otherwise an
        averaged reading converted through the feedback anchors. */
    method GetSpos() returns (p: U16)
      requires hasFeedback ==> d.fposMin != d.fposMax
      modifies this, sensor
      ensures (p, State()) == Position(old(State()), sensor.feed)
    {
      if !hasFeedback {
        return lastSpos;
      }
      var f := GetFpos(DEFAULT_SAMPLES);
      p := FeedbackToPulse(d, f);
    }

    /** `get_rpos`: zero, without reading anything, until calibrated;
        otherwise the reported pulse as an offset from the rest pulse. */
    method GetRpos() returns (r: I16)
      requires hasFeedback && d.isCalibrated ==> d.fposMin != d.fposMax
      modifies this, sensor
      ensures (r, State()) == RelativePosition(old(State()), sensor.feed)
    {
      if !d.isCalibrated {
        return 0;
      }
      var p := GetSpos();
      r := PulseToRelative(d, p);
    }

    /** `set_zero_pos_current`, as `ZeroPoint` states it. */
    method SetZeroPosCurrent() returns (ok: bool)
      requires Valid(State())
      modifies this, servo, sensor
      ensures (ok, State()) == ZeroPoint(old(State()), sensor.feed)
    {
      if !hasFeedback {
        if lastSpos == 0 {
          return false;
        }
        var _ := SetSpos(lastSpos, false);
        return true;
      }
      var cur: U16 := if lastSpos > 0 then lastSpos else d.sposZero;
      var wantedFpos := GetFpos(DEFAULT_SAMPLES);
      var converged;
      ghost var polls;
      cur, converged, polls := ZeroSearchLoop(cur, wantedFpos);
      if converged {
        d := d.(sposZero := cur, fposZero := wantedFpos);
        ok := true;
      } else {
        ok := false;
      }
    }

    /** The poll loop of `set_zero_pos_current`: command the candidate,
        read, and stop when the reading is the target `wanted`, at most
        `MAX_ITER` times. The loop makes the search `ZeroSearch` describes,
        starting at the current read count, and the returned pulse is the
        candidate it committed to when it converged. */
    method ZeroSearchLoop(c0: U16, wanted: U16) returns (cur: U16, converged: bool, ghost polls: nat)
      requires Commandable(d)
      modifies this, servo, sensor
      ensures var z := ZeroSearch(sensor.feed, old(sensor.taken), wanted, c0);
              && z.converged == converged && z.polls == polls
              && (converged ==> z.candidate == cur)
      ensures State() == Polled(old(State()), sensor.feed, old(sensor.taken), wanted, c0, polls)
    {
      cur := c0;
      ghost var start := State();
      ghost var s := sensor.taken;
      var maxIterations: U16 := MAX_ITER + 1;
      maxIterations := maxIterations - 1;
      // `j` counts the polls that missed the target.
      ghost var j: nat := 0;
      converged := false;
      while maxIterations != 0
        invariant j + maxIterations == MAX_ITER
        invariant cur == Candidate(sensor.feed, s, wanted, c0, j)
        invariant MissedBefore(sensor.feed, s, wanted, j)
        invariant sensor.taken == s + 4 * j
        invariant State() == Polled(start, sensor.feed, s, wanted, c0, j)
      {
        var matched, next := PollAt(cur, wanted, start, s, c0, j);
        if matched {
          converged := true;
          polls := j + 1;
          return;
        }
        cur := next;
        j := j + 1;
        maxIterations := maxIterations - 1;
      }
      ZeroSearchExhausted(sensor.feed, s, wanted, c0);
      polls := MAX_ITER;
    }

    /** Poll `j` of the zero search started in `start`: command the
        candidate `p` without settle-wait and read back the averaged
        position. A match ends the search; otherwise `next` is the candidate
        of the following poll. */
    method PollAt(p: U16, wanted: U16, ghost start: ServoState, ghost s: nat, ghost c0: U16, ghost j: nat)
      returns (matched: bool, next: U16)
      requires Commandable(start.d) && j < MAX_ITER
      requires State() == Polled(start, sensor.feed, s, wanted, c0, j)
      requires p == Candidate(sensor.feed, s, wanted, c0, j)
      requires MissedBefore(sensor.feed, s, wanted, j)
      requires sensor.taken == s + 4 * j
      modifies this, servo, sensor
      ensures State() == Polled(start, sensor.feed, s, wanted, c0, j + 1)
      ensures sensor.taken == s + 4 * (j + 1)
      ensures matched ==> ZeroSearch(sensor.feed, s, wanted, c0) == Search(true, j + 1, p)
      ensures !matched ==> MissedBefore(sensor.feed, s, wanted, j + 1)
      ensures !matched ==> next == Candidate(sensor.feed, s, wanted, c0, j + 1)
    {
      PolledStep(start, sensor.feed, s, wanted, c0, j);
      ghost var t := sensor.taken;
      var _ := SetSpos(p, false);
      var got := GetFpos(DEFAULT_SAMPLES);
      CandidateStep(sensor.feed, s, wanted, c0, j, t);
      matched := wanted == got;
      if matched {
        ZeroSearchStoppedAt(sensor.feed, s, wanted, c0, j);
        next := p;
      } else {
        next := StepCandidate(p, wanted, got);
      }
    }

    /** The candidate update of `set_zero_pos_current` after a poll that
        read `got` short of the target `wanted`: one `uint16_t` step
        toward it, then twice the error on top when the error exceeds 10. */
    static method StepCandidate(cur: U16, wanted: U16, got: U16) returns (next: U16)
      requires wanted != got
      ensures next == NextCandidate(cur, wanted, got)
    {
      next := cur;
      if wanted > got {
        next := Wrap16(next + 1);
      } else {
        next := Wrap16(next - 1);
      }
      if Abs(wanted - got) > 10 {
        next := Wrap16(next + (wanted - got) * 2);
      }
    }

    /** One excursion of `calibrate`: command the offset `r` with
        settle-wait, read the position, and re-estimate the feedback anchor
        of the lower (`towardMin`) or the upper pulse bound. */
    method MeasureBorder(r: I16, towardMin: bool)
      requires Valid(State())
      modifies this, servo, sensor
      ensures State() == Excursion(old(State()), sensor.feed, r, towardMin)
    {
      var _ := SetRpos(r, true);
      var fpos := GetFpos(DEFAULT_SAMPLES);
      var spos := lastSpos;
      if towardMin {
        d := d.(fposMin := BorderEstimate(d.fposMin, d.sposZero, spos, d.sposMin, d.fposZero, fpos));
      } else {
        d := d.(fposMax := BorderEstimate(d.fposMax, d.sposZero, spos, d.sposMax, d.fposZero, fpos));
      }
    }

    /** `calibrate`, as `Calibration` states it. */
    method Calibrate() returns (ok: bool)
      requires Valid(State())
      modifies this, servo, sensor
      ensures (ok, State()) == Calibration(old(State()), sensor.feed)
    {
      var zeroed := SetZeroPosCurrent();
      if !zeroed {
        return false;
      }
      MeasureBorders();
      ok := true;
    }

    /** The rest of `calibrate` once the rest point is found. */
    method MeasureBorders()
      requires Valid(State())
      modifies this, servo, sensor
      ensures State() == Calibrated(old(State()), sensor.feed)
    {
      MeasureBorder(CALIB_RANGE, true);
      MeasureBorder(-CALIB_RANGE, false);
      var _ := SetRpos(0, false);
      d := d.(isCalibrated := true);
    }
  }
}
