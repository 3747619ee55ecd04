/** The order in which the controller drives the actuator: it attaches the
    actuator only while detached (so never twice without a detach between),
    and writes to and detaches it only while attached. The actuator class in
    `Hardware` demands this of each call; here the same rule is stated on
    the recorded call log, and every transition of `ControllerModel` is
    proved to keep it. */
module ActuatorDiscipline {
  import opened CInt
  import opened ServoConfig
  import opened Hardware
  import opened Conversion
  import opened Sampling
  import opened ControllerModel
  import opened ControllerFacts

  /** The outcome of replaying actuator calls: the attached flag they leave,
      or a call made in a state that does not allow it. */
  datatype Trace = Legal(attached: bool) | Illegal

  /** One call from the attached flag `a`. */
  function Step(t: Trace, e: ActuatorEvent): Trace
  {
    match t
    case Illegal => Illegal
    case Legal(a) =>
      match e
      case Attached(_, _, _) => if a then Illegal else Legal(true)
      case Wrote(_) => if a then Legal(true) else Illegal
      case Detached => if a then Legal(false) else Illegal
  }

  /** The calls of `log` replayed in order from `t`. */
  function Replayed(t: Trace, log: seq<ActuatorEvent>): Trace
    decreases |log|
  {
    if log == [] then t else Step(Replayed(t, log[..|log| - 1]), log[|log| - 1])
  }

  /** A state whose log, replayed from a detached actuator, is legal and
      leaves the attached flag the state records. */
  predicate Disciplined(st: ServoState)
  {
    Replayed(Legal(false), st.log) == Legal(st.attached)
  }

  /** Replaying two logs one after the other is replaying their
      concatenation. */
  lemma {:induction false} ReplayedAppend(t: Trace, log1: seq<ActuatorEvent>, log2: seq<ActuatorEvent>)
    ensures Replayed(t, log1 + log2) == Replayed(Replayed(t, log1), log2)
    decreases |log2|
  {
    if log2 != [] {
      var init := log2[..|log2| - 1];
      assert (log1 + log2)[..|log1 + log2| - 1] == log1 + init;
      assert (log1 + log2)[|log1 + log2| - 1] == log2[|log2| - 1];
      ReplayedAppend(t, log1, init);
    } else {
      assert log1 + log2 == log1;
    }
  }

  /** The calls of one written pulse are legal from either attached flag
      and leave the actuator attached. */
  lemma CommandLogLegal(d: ServoData, a: bool, q: U16)
    ensures Replayed(Legal(a), CommandLog(d, a, q)) == Legal(true)
  {
    var one := [Attached(d.signalPin, d.sposMin, d.sposMax)];
    assert one[..0] == [];
    assert Replayed(Legal(a), one) == if a then Illegal else Legal(true);
    var log := CommandLog(d, a, q);
    if !a {
      assert log == one + [Wrote(q)];
      assert log[..|log| - 1] == one;
    } else {
      assert log == [Wrote(q)];
      assert log[..|log| - 1] == [];
    }
  }

  /** `set_spos` before its settle-wait keeps the discipline. */
  lemma CommandedDisciplined(st: ServoState, p: int)
    requires Commandable(st.d) && Disciplined(st)
    ensures Disciplined(Commanded(st, p))
  {
    if !st.d.isDisabled {
      var q := Applied(st.d, p);
      ReplayedAppend(Legal(false), st.log, CommandLog(st.d, st.attached, q));
      CommandLogLegal(st.d, st.attached, q);
    }
  }

  /** `set_spos`, settle-wait included, keeps the discipline. */
  lemma CommandDisciplined(st: ServoState, feed: Feed, p: int, doWaitStable: bool)
    requires Commandable(st.d) && Disciplined(st)
    ensures Disciplined(Command(st, feed, p, doWaitStable).1)
  {
    CommandedDisciplined(st, p);
  }

  /** `detach` keeps the discipline. */
  lemma ReleasedDisciplined(st: ServoState)
    requires Disciplined(st)
    ensures Disciplined(Released(st))
  {
    if st.attached {
      ReplayedAppend(Legal(false), st.log, [Detached]);
      assert [Detached][..0] == [];
    }
  }

  /** `_init` leaves a legal log and a detached actuator. */
  lemma StartedDisciplined(init: ServoData, feed: Feed)
    requires Commandable(init)
    ensures Disciplined(Started(init, feed))
  {
    var probed := Sampled(Fresh(init), feed, PROBE_SAMPLES);
    var sensed := probed.(hasFeedback := probed.lastFpos >= NC_TH);
    assert Disciplined(sensed);
    CommandDisciplined(sensed, feed, init.sposZero, true);
    ReleasedDisciplined(Command(sensed, feed, init.sposZero, true).1);
  }

  /** The polls of the zero search keep the discipline. */
  lemma {:induction false} PolledDisciplined(st: ServoState, feed: Feed, s: nat, wanted: U16, c0: U16, n: nat)
    requires Commandable(st.d) && Disciplined(st)
    ensures Disciplined(Polled(st, feed, s, wanted, c0, n))
    decreases n
  {
    if n > 0 {
      var before := Polled(st, feed, s, wanted, c0, n - 1);
      var c := Candidate(feed, s, wanted, c0, n - 1);
      PolledDisciplined(st, feed, s, wanted, c0, n - 1);
      CommandedDisciplined(before, c);
      LogOfNextPoll(st, feed, s, wanted, c0, n);
      assert Polled(st, feed, s, wanted, c0, n).attached == Commanded(before, c).attached;
    }
  }

  /** `set_zero_pos_current` keeps the discipline, whether or not it
      succeeds. */
  lemma ZeroPointDisciplined(st: ServoState, feed: Feed)
    requires Valid(st) && Disciplined(st)
    ensures Disciplined(ZeroPoint(st, feed).1)
  {
    if !st.hasFeedback {
      if st.lastSpos != 0 {
        CommandedDisciplined(st, st.lastSpos);
      }
    } else {
      var probed := Sampled(st, feed, DEFAULT_SAMPLES);
      var c0 := if st.lastSpos > 0 then st.lastSpos else st.d.sposZero;
      var z := ZeroSearch(feed, probed.taken, probed.lastFpos, c0);
      PolledDisciplined(probed, feed, probed.taken, probed.lastFpos, c0, z.polls);
    }
  }

  /** `calibrate` keeps the discipline, whether or not it succeeds. */
  lemma CalibrationDisciplined(st: ServoState, feed: Feed)
    requires Valid(st) && Disciplined(st)
    ensures Disciplined(Calibration(st, feed).1)
  {
    ZeroPointDisciplined(st, feed);
    var zeroed := ZeroPoint(st, feed).1;
    if ZeroPoint(st, feed).0 {
      var cw := Excursion(zeroed, feed, CALIB_RANGE, true);
      CommandDisciplined(zeroed, feed, RelativeToPulse(zeroed.d, CALIB_RANGE), true);
      assert Disciplined(cw);
      var ccw := Excursion(cw, feed, -CALIB_RANGE, false);
      CommandDisciplined(cw, feed, RelativeToPulse(cw.d, -CALIB_RANGE), true);
      assert Disciplined(ccw);
      CommandedDisciplined(ccw, RelativeToPulse(ccw.d, 0));
    }
  }
}
