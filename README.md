# singleservo, modelled in Dafny

This project models `singleservo`. It is the controller of one hobby servo
on an Arduino board, with an optional analog position-feedback sensor. The
controller:

- commands pulse widths (`set_spos`), degrees (`set_dpos`) and offsets from a
  rest point (`set_rpos`);
- reads the sensor as an average of several samples (`get_fpos`);
- waits until the feedback settles (`wait_stable`);
- reports its position (`get_spos`, `get_rpos`);
- finds its rest point by a feedback search (`set_zero_pos_current`);
- estimates the feedback readings at both pulse bounds (`calibrate`);
- probes for a wired sensor when it is constructed.

The modules follow the program's layers:

| module | file | what it holds |
|---|---|---|
| `CInt` | `cint.dfy` | `uint8_t`/`uint16_t`/`int16_t` as subset types; narrowing to 16 and 32 bits; C++ truncating division |
| `ServoConfig` | `servo_config.dfy` | the `singleservo_data` record and its default initialisers |
| `Hardware` | `hardware.dfy` | the actuator (attached flag plus a ghost log of its calls) and the sensor (a script of readings plus a read counter) |
| `Conversion` | `conversion.dfy` | Arduino `map`; the clamp of `set_spos`; the degree, offset and feedback conversions; `_approx_border` |
| `Sampling` | `sampling.dfy` | the averaged reading, the settle-wait poll loop and the zero search, as functions of the reading script |
| `ControllerModel` | `controller_model.dfy` | the whole state that an operation can change, and one transition function per operation |
| `ServoControl` | `single_servo.dfy` | the class `SingleServo` with imperative methods, each proved to make its transition |
| `ControllerFacts` | `controller_facts.dfy` | what the transitions promise |
| `ActuatorDiscipline` | `actuator_discipline.dfy` | the order of actuator calls, proved to be kept by every transition |

Each public operation of `SingleServo` ensures `(result, State()) == T(old(State()), feed)`.
Here `T` is its transition in `ControllerModel`, and `State()` collects:

- the configuration record;
- the feedback flag;
- the last pulse and the last reading;
- the actuator's attached flag and call log;
- the number of readings taken.

The properties of the source are proved about the transitions as lemmas.
Through the method contracts they hold for the class.

The sensor is a finite script `feed` of 10-bit readings. The k-th reading
since construction is `ReadAt(feed, k)`, which is 0 past the end of the
script. Every run of the controller takes finitely many readings, so any
run is described by some script. A property proved for all scripts
therefore holds however the servo actually moves.

## Model

| member | source | states |
|---|---|---|
| `CInt.Wrap16` | singleservo.cpp:160-166 | the stored `uint16_t` agrees with the exact value modulo 2^16 and equals it when it fits |
| `CInt.ToInt16` | singleservo.cpp:181 | the `int16_t` agrees with the exact value modulo 2^16 and equals it when it fits |
| `CInt.ToInt32` | singleservo.cpp:182-185 | the `int32_t` lies in the 32-bit range, agrees modulo 2^32 and equals the exact value when it fits |
| `CInt.Int16OfU16` | singleservo.cpp:197 | a `uint16_t` passed as `int16_t` reads as itself below 0x8000 and as itself minus 2^16 from 0x8000 up; narrowing back gives the original |
| `CInt.Int16RoundTrip` | singleservo.cpp:197 | an `int16_t` estimate stored in a `uint16_t` anchor reads back as the same `int16_t` |
| `CInt.TruncDiv` | singleservo.cpp:185 | C++ division: the remainder is smaller than the divisor in magnitude and the product `q*b` lies between 0 and `a` (truncation toward zero) |
| `CInt.TruncDivExact` | singleservo.cpp:185 | an exact multiple divides back to its factor |
| `ServoConfig.Defaults` | singleservo.h:10-26 | the default record: given pins, not calibrated, clockwise, enabled, pulse bounds 500..2500 around a rest pulse inside them, feedback anchors ordered and distinct |
| `Hardware.ReadAt` | singleservo.cpp:95 | within the script, read number `k` is the script's `k`-th reading |
| `Hardware.Actuator.constructor` | singleservo.h:65 | the actuator starts detached with no calls made |
| `Hardware.Actuator.Attach` | singleservo.cpp:46-48 | only a detached actuator is attached; the call is logged |
| `Hardware.Actuator.WriteMicroseconds` | singleservo.cpp:49 | only an attached actuator is written; the call is logged |
| `Hardware.Actuator.Detach` | singleservo.cpp:12-16 | only an attached actuator is detached; the call is logged |
| `Hardware.Sensor.Read` | singleservo.cpp:95 | the reading is the script's next one and the read counter advances by one |
| `Conversion.ArduinoMap` | singleservo.cpp:26 | `map` sends the two input ends to the two output ends and keeps an input between the input ends, given in either order, within an ordered output range |
| `Conversion.Clamp` | singleservo.cpp:37-44 | with ordered bounds the result lies within them |
| `Conversion.ClampIsNearest` | singleservo.cpp:37-44 | no value within the bounds is nearer to the command than the clamped one |
| `Conversion.DegreeToPulse` | singleservo.cpp:22-29 | every degree 0..180 maps into the pulse bounds |
| `Conversion.DegreeEndpoints` | singleservo.cpp:26 | 0 degrees is `spos_min`, 180 degrees is `spos_max`, 90 degrees on the default bounds is 1500 |
| `Conversion.DegreeMonotonic` | singleservo.cpp:26 | a larger degree never gives a smaller pulse |
| `Conversion.RelativeToPulse` | singleservo.cpp:59-62 | the pulse is `spos_zero` plus the sign-adjusted offset modulo 2^16, and exactly that when it fits and the negation does not overflow |
| `Conversion.PulseToRelative` | singleservo.cpp:216-220 | 0 while uncalibrated; otherwise the sign-adjusted distance from `spos_zero` whenever it fits in `int16_t` |
| `Conversion.RelativeRoundTrip` | singleservo.cpp:59-62 | the offset that `get_rpos` reads back from the pulse of `set_rpos(r)` is `r`, for every `int16_t` offset and both directions |
| `Conversion.WrappedOffsetClampsHigh` | singleservo.cpp:59-62 | an offset that takes the target below pulse 0 wraps and is clamped to `spos_max`, the far bound; default offset 2000 lands on 2500 |
| `Conversion.FeedbackToPulse` | singleservo.cpp:213 | the feedback anchors map onto the pulse bounds, and readings between them, whichever anchor is larger, onto pulses between the bounds |
| `Conversion.ApproxBorder` | singleservo.cpp:181-187 | the estimate is the sampled reading plus the rise times the remaining run, wrapped to 32 bits and divided with truncation by the sampled run, narrowed to `int16_t`; when the border is the sampled pulse, or the reading did not move, it is the sampled reading |
| `Conversion.ApproxBorderOnLine` | singleservo.cpp:181-187 | when the border point lies on the line through the two measured points, the estimate is exactly its reading |
| `Sampling.SampleSumWraps` | singleservo.cpp:92-96 | the `uint16_t` running sum of any number of readings is their true sum modulo 2^16 |
| `Sampling.SampleMeanIsMean` | singleservo.cpp:91-98 | for 1 to 64 samples the stored value is the true mean of the readings, rounded down |
| `Sampling.SampleSumExact` | singleservo.cpp:92-96 | up to 64 readings never overflow the 16-bit running sum |
| `Sampling.MeanWithin` | singleservo.cpp:91-98 | the averaged reading lies between the smallest and the largest sample |
| `Sampling.MeanOfConstant` | singleservo.cpp:91-98 | a sensor that holds one value averages to exactly that value |
| `Sampling.FirstSettled` | singleservo.cpp:70-82 | the first settling poll at or after `j` within the budget, or the budget when none settles |
| `Sampling.Settle` | singleservo.cpp:64-85 | the settle-wait takes 8 to 2400 readings, all 2400 when it fails, and reports its last averaged reading |
| `Sampling.SettleSucceedsIff` | singleservo.cpp:64-85 | the settle-wait succeeds iff one of its 300 polls read two equal averages, and then reports the settled average |
| `Sampling.SettleStoppedAt` | singleservo.cpp:70-82 | the loop stops at its first settled poll |
| `Sampling.SettleExhausted` | singleservo.cpp:84 | a loop that never settles fails after 300 polls |
| `Sampling.SettleWhenSteady` | singleservo.cpp:64-85 | a servo already at rest settles on the first poll and reports its reading |
| `Sampling.WaitOutcome` | singleservo.cpp:64-85 | the wait succeeds only with feedback; without it no reading is taken and the last reading is kept; with it 8 to 2400 readings are taken |
| `Sampling.CorrectionStep` | singleservo.cpp:159-167 | the correction has the sign of the error; its size is 1, or twice the error plus one when the error exceeds 10 |
| `Sampling.NextCandidateCorrects` | singleservo.cpp:159-167 | the two wrapping updates of the candidate add up to one correction step modulo 2^16 |
| `Sampling.CandidateDrift` | singleservo.cpp:150-167 | while no poll has read the target, the candidate of poll `j` is the first candidate plus the sum of all corrections so far, modulo 2^16 |
| `Sampling.FirstMatch` | singleservo.cpp:150-169 | the first poll at or after `j` within the budget that reads the target, or the budget |
| `Sampling.ZeroSearch` | singleservo.cpp:149-178 | the search polls 1 to 300 times, and all 300 when it does not converge |
| `Sampling.ZeroSearchConvergesIff` | singleservo.cpp:149-178 | the search converges iff some poll within the budget read the target; the committed candidate is the one whose poll read it |
| `Sampling.ZeroSearchStoppedAt` | singleservo.cpp:155-157 | the loop stops at its first matching poll and commits that poll's candidate |
| `Sampling.ZeroSearchExhausted` | singleservo.cpp:171-177 | a search that never matches fails after 300 polls |
| `Sampling.ZeroSearchAtRest` | singleservo.cpp:146-157 | a servo at rest converges on the first poll with the starting candidate |
| `ControllerModel.Sampled` | singleservo.cpp:91-98 | `get_fpos(n)` takes exactly `n` readings and changes nothing but the read count and the last reading |
| `ControllerModel.Waited` | singleservo.cpp:64-85 | `wait_stable` succeeds only with feedback, changes nothing without it, and otherwise changes only the read count (by 8 to 2400) and the last reading |
| `ControllerModel.Released` | singleservo.cpp:12-16 | `detach` leaves the actuator detached and keeps the record, the last pulse and the read count |
| `ControllerModel.Applied` | singleservo.cpp:35-53 | the pulse written for a command lies within the bounds, and is the command itself when it is in range |
| `ControllerModel.AppliedIsNearest` | singleservo.cpp:37-44 | no in-range pulse is nearer to the command than the written one |
| `ControllerModel.Commanded` | singleservo.cpp:46-50 | writing a pulse keeps the record, the feedback flag, the reading and the read count, and keeps the state valid |
| `ControllerModel.Command` | singleservo.cpp:35-53 | `set_spos` keeps the record and the feedback flag and keeps the state valid |
| `ControllerModel.Started` | singleservo.cpp:120-125 | start-up leaves a valid state with the actuator detached and the record given |
| `ControllerModel.DegreeCommand` | singleservo.cpp:22-29 | `set_dpos` refuses degrees above 180 with no effect, and keeps the record, the feedback flag and the state's validity |
| `ControllerModel.Position` | singleservo.cpp:210-214 | `get_spos` returns the last pulse and reads nothing without feedback; with feedback it takes four readings; either way it changes nothing but the read count and the last reading |
| `ControllerModel.RelativePosition` | singleservo.cpp:216-220 | `get_rpos` is 0 and reads nothing until calibrated; once calibrated without feedback it is the offset of the last pulse; it changes nothing but the read count and the last reading |
| `ControllerModel.Polled` | singleservo.cpp:150-169 | the polls of the search keep the record and the feedback flag, and keep the state valid |
| `ControllerModel.ZeroPoint` | singleservo.cpp:138-179 | `set_zero_pos_current` keeps the state valid and the feedback flag |
| `ControllerModel.Searched` | singleservo.cpp:146-178 | the search loop keeps the feedback flag and the state's validity |
| `ControllerModel.BorderEstimate` | singleservo.cpp:194-202 | an excursion that landed on the rest pulse keeps the anchor (the source divides by zero there); otherwise the stored anchor reads back as exactly the `int16_t` result of `_approx_border` on the pulses and readings passed as `int16_t` |
| `ControllerModel.Excursion` | singleservo.cpp:194-202 | one calibration excursion keeps the state valid and the feedback flag |
| `ControllerModel.Calibrated` | singleservo.cpp:194-207 | the excursions and the return keep the state valid and the feedback flag |
| `ControllerModel.Calibration` | singleservo.cpp:189-208 | `calibrate` keeps the state valid and the feedback flag |
| `ControllerFacts.CommandFacts` | singleservo.cpp:35-53 | a disabled servo refuses with no effect; otherwise the nearest in-range pulse is written (attaching first if detached); the result is true iff the command was in range and any requested settle-wait succeeded |
| `ControllerFacts.DegreeCommandFacts` | singleservo.cpp:22-29 | degrees above 180 are refused with no effect; other degrees write their pulse on the degree scale and succeed without a wait; 0 and 180 write the bounds |
| `ControllerFacts.RelativeReadBack` | singleservo.cpp:59-62 | without feedback, `get_rpos` after an in-range `set_rpos(r)` returns `r` |
| `ControllerFacts.PositionFacts` | singleservo.cpp:210-214 | `get_spos` without feedback returns the last pulse and reads nothing; with feedback it takes four readings and maps the anchors onto the bounds and readings between the anchors, in either order, into the bounds |
| `ControllerFacts.UncalibratedOffsetIsZero` | singleservo.cpp:216-217 | `get_rpos` is 0 and reads nothing on every uncalibrated servo, whatever its feedback anchors |
| `ControllerFacts.SearchLogStep` | singleservo.cpp:151 | each poll adds one command's calls to the actuator log |
| `ControllerFacts.PolledReadings` | singleservo.cpp:154 | `n` polls take 4n readings, and the last averaged reading is that of poll `n-1` |
| `ControllerFacts.PolledCommands` | singleservo.cpp:151 | after a poll the actuator is attached and the last pulse is the last candidate clamped to the bounds; a disabled servo is untouched |
| `ControllerFacts.PolledLanding` | singleservo.cpp:154-157 | when the last poll matched, the last averaged reading is the target |
| `ControllerFacts.PolledLog` | singleservo.cpp:150-169 | the actuator log of `n` polls is one attach if detached, then the writes of the `n` candidates, each clamped to the bounds |
| `ControllerFacts.ZeroPointWithoutFeedback` | singleservo.cpp:139-144 | without feedback it succeeds iff a pulse was ever commanded, and keeps the record, the last pulse and the read count |
| `ControllerFacts.SearchedConvergesIff` | singleservo.cpp:149-178 | the search succeeds iff one of its polls read the target |
| `ControllerFacts.SearchedCommitsTarget` | singleservo.cpp:171-175 | on success only `spos_zero` and `fpos_zero` change, `fpos_zero` becomes the target, and the last reading is the target |
| `ControllerFacts.SearchedCommitsPulse` | singleservo.cpp:171-175 | on success the pulse last written to the actuator is the new `spos_zero` clamped to `[spos_min, spos_max]`; the committed `spos_zero` itself is not clamped |
| `ControllerFacts.SearchedFailureKeeps` | singleservo.cpp:176-177 | on failure the record is unchanged after all 300 polls |
| `ControllerFacts.ZeroPointWithFeedback` | singleservo.cpp:146-178 | with feedback the target is the first average; success iff a poll read it; success commits the candidate whose clamp to the bounds was last written, and the target; failure changes no configuration |
| `ControllerFacts.SearchedAtOnce` | singleservo.cpp:150-157 | when the first poll reads the target, the search succeeds at once with the starting candidate |
| `ControllerFacts.ZeroPointAtRest` | singleservo.cpp:146-175 | a servo at rest finds its rest point in one poll, keeping its starting pulse and reading eight times |
| `ControllerFacts.CalibrationFailsIff` | singleservo.cpp:189-192 | `calibrate` fails iff the rest-point search fails, and then leaves what the search left |
| `ControllerFacts.ExcursionKeeps` | singleservo.cpp:194-202 | an excursion changes only the feedback anchor on its own side |
| `ControllerFacts.CommandedEndsWithWrite` | singleservo.cpp:46-50 | the last actuator call of a command is the write of the last pulse |
| `ControllerFacts.CalibratedKeeps` | singleservo.cpp:194-207 | calibration changes only the two anchors and the calibrated mark, and ends by writing the rest pulse clamped to the pulse bounds |
| `ControllerFacts.CalibrationResult` | singleservo.cpp:189-208 | a successful `calibrate` marks the servo calibrated, keeps the rest of the found rest point's record, and leaves the servo at the rest pulse clamped to the pulse bounds |
| `ControllerFacts.BorderOnLine` | singleservo.cpp:181-187 | when calibration's readings are linear in the pulse, the estimated border reading is the reading on that line |
| `ControllerFacts.FlatFeedbackCollapsesBorders` | singleservo.cpp:181-187 | when the excursion reads the rest reading, the border estimate is that same reading |
| `ControllerFacts.StartedFacts` | singleservo.cpp:120-125 | feedback is detected iff the 8-sample probe averages at least 5; an enabled servo attaches, writes the rest pulse clamped to the pulse bounds, settles if it has feedback, and detaches |
| `ActuatorDiscipline.CommandLogLegal` | singleservo.cpp:46-49 | one command's calls are legal from either state and leave the actuator attached |
| `ActuatorDiscipline.CommandedDisciplined` | singleservo.cpp:46-50 | writing a pulse keeps the log legal and in step with the attached flag |
| `ActuatorDiscipline.CommandDisciplined` | singleservo.cpp:35-53 | `set_spos` keeps the log legal |
| `ActuatorDiscipline.ReleasedDisciplined` | singleservo.cpp:12-16 | `detach` keeps the log legal |
| `ActuatorDiscipline.StartedDisciplined` | singleservo.cpp:120-125 | start-up leaves a legal log and a detached actuator |
| `ActuatorDiscipline.PolledDisciplined` | singleservo.cpp:150-169 | the polls of the search keep the log legal |
| `ActuatorDiscipline.ZeroPointDisciplined` | singleservo.cpp:138-179 | `set_zero_pos_current` keeps the log legal |
| `ActuatorDiscipline.CalibrationDisciplined` | singleservo.cpp:189-208 | `calibrate` keeps the log legal |
| `ServoControl.SingleServo.constructor` | singleservo.cpp:133-136 | constructing from a record runs start-up on that record |
| `ServoControl.SingleServo.FromPins` | singleservo.cpp:127-131 | constructing from two pins runs start-up on the default record with those pins |
| `ServoControl.SingleServo.Init` | singleservo.cpp:120-125 | `_init` makes the start-up transition |
| `ServoControl.SingleServo.Detach` | singleservo.cpp:12-16 | `detach` makes the release transition |
| `ServoControl.SingleServo.GetFpos` | singleservo.cpp:91-98 | the wrapping sum of `scount` readings divided by `scount` is stored and returned |
| `ServoControl.SingleServo.WaitStable` | singleservo.cpp:64-85 | `wait_stable` makes the settle-wait transition |
| `ServoControl.SingleServo.SettleLoop` | singleservo.cpp:69-84 | the poll loop takes the readings and gives the result that `Settle` describes |
| `ServoControl.SingleServo.SettlePoll` | singleservo.cpp:71-75 | one poll takes two averages of four readings and compares them |
| `ServoControl.SingleServo.SetSpos` | singleservo.cpp:35-53 | `set_spos` makes the command transition |
| `ServoControl.SingleServo.SetDpos` | singleservo.cpp:22-29 | `set_dpos` makes the degree-command transition |
| `ServoControl.SingleServo.SetRpos` | singleservo.cpp:59-62 | `set_rpos` commands the offset's pulse |
| `ServoControl.SingleServo.GetSpos` | singleservo.cpp:210-214 | `get_spos` makes the position transition |
| `ServoControl.SingleServo.GetRpos` | singleservo.cpp:216-220 | `get_rpos` makes the relative-position transition |
| `ServoControl.SingleServo.SetZeroPosCurrent` | singleservo.cpp:138-179 | `set_zero_pos_current` makes the rest-point transition |
| `ServoControl.SingleServo.ZeroSearchLoop` | singleservo.cpp:149-169 | the loop polls as `ZeroSearch` says and returns the committed candidate on convergence |
| `ServoControl.SingleServo.PollAt` | singleservo.cpp:151-167 | one poll commands the candidate, reads, and either matches or moves on to the next candidate |
| `ServoControl.SingleServo.StepCandidate` | singleservo.cpp:159-167 | the in-place update of the candidate gives the next candidate |
| `ServoControl.SingleServo.MeasureBorder` | singleservo.cpp:194-202 | one excursion makes the excursion transition |
| `ServoControl.SingleServo.Calibrate` | singleservo.cpp:189-208 | `calibrate` makes the calibration transition |
| `ServoControl.SingleServo.MeasureBorders` | singleservo.cpp:194-207 | the rest of `calibrate` makes the calibrated transition |

## Left out

- `delay`, `pinMode` and the `DEBUG` branch are not modelled. They change nothing the controller or its callers can observe.
- `dump_data` is not modelled as a whole. Besides its `Serial` output it calls `get_fpos()`, which takes four readings and overwrites the last averaged reading; the model has no operation for that call, so its effect on the read count and the last reading is not captured.
- `tick`, `set_rfpos` and the `_next_spos*`/`_t_slots` fields are declared in `singleservo.h` but have no definition in the source; `pos_min`/`pos_max` are read by nothing but the output of `dump_data`. None of them is modelled.
- The one-argument overloads (`set_spos(p)`, `set_dpos(d)`, `set_rpos(r)`, `get_fpos()`) are modelled by passing `false` or 4 explicitly.
- The `Servo` library is reduced to its attached flag and a log of calls. Pulse generation and timing are not modelled.
- `analogRead` is a finite script of readings that reports 0 past its end. The physical coupling between the pulse written and the reading returned is not modelled, so convergence of the zero search on a real servo is not claimed. What is proved holds for every script.
- `ControllerModel.Command` and the methods that command a pulse require `Commandable`: enabled servos need `spos_min <= spos_max`. Otherwise the re-issue at the nearer bound recurses forever, so the source does not terminate.
- `ServoControl.SingleServo.GetFpos` requires `1 <= scount <= 127`. With 0 the source divides by zero, and above 127 its `int8_t` counter overflows. The source only uses 4 and 8.
- `ControllerModel.Position` and `ServoControl.SingleServo.GetSpos` require distinct feedback anchors when feedback is wired, and `ControllerModel.RelativePosition` and `ServoControl.SingleServo.GetRpos` require them on a servo that is calibrated with feedback, because `map` divides by their difference.
- `Conversion.ApproxBorder`: the `int32_t` product `ll21 * ll12` of `_approx_border` can overflow, which C++ leaves undefined. The model chooses the two's-complement wrap that `ToInt32` expresses.
- `ControllerModel.BorderEstimate`: when an excursion lands on `spos_zero`, `_approx_border` divides by zero (undefined in C++). The model keeps the previous anchor there.
- The model assumes a target whose `int` is wider than 16 bits, so differences of `uint16_t` and `int16_t` values are computed exactly before any narrowing. This governs `abs(wanted_fpos - _last_fpos)` in the zero search and the differences `l11 - l10`, `l12 - l11` and `l21 - l20` of `_approx_border`. On a 16-bit `int` those differences would wrap (and the zero-search difference would be unsigned).
- `Sampling.NextCandidate`: `abs(wanted_fpos - _last_fpos)` is taken on the signed difference, under the wide-`int` assumption above. On a 16-bit `int` the large step would also apply to small negative errors.
- `Conversion.ArduinoMap` computes `map` over unbounded integers. Arduino computes it in 32-bit `long`, where the product of the input offset and the output width can overflow. In `get_spos` the input is a reading of at most 1023 and `fpos_min` is 16-bit, so the input offset is at most 65535 and an overflow needs `spos_max - spos_min` above 32768; the default 500..2500 range never overflows. The model does not capture the overflow for wider ranges.
- `ControllerModel.ZeroPoint`, `ControllerModel.Excursion`, `ControllerModel.Calibration`, `ServoControl.SingleServo.SetZeroPosCurrent` and `ServoControl.SingleServo.Calibrate` require `Valid`, although only `Commandable` is needed for them to terminate. `d` is public, so a client that changes it after a command (for instance sets `is_disabled`) leaves a state those members do not accept; the model says nothing about calibrating from such a state.
- `ControllerModel.Started`: the `delay(500)` after a failed start-up command is not modelled. It has no other effect.
