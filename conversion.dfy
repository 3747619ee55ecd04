/** The pure integer conversions of the controller: Arduino's `map`, the
    clamp that `set_spos` performs, the degree, relative-offset and feedback
    conversions onto pulse width, and the two-point extrapolation that
    calibration uses to estimate the feedback reading at a pulse bound. */
module Conversion {
  import opened CInt
  import opened ServoConfig

  /** Arduino's `map`: linear interpolation of `x` from `[inMin, inMax]` onto
      `[outMin, outMax]`, computed in `long` with C++ truncating division.
      The input range may be given in either order. */
  function ArduinoMap(x: int, inMin: int, inMax: int, outMin: int, outMax: int): (r: int)
    requires inMin != inMax
    ensures x == inMin ==> r == outMin
    ensures x == inMax ==> r == outMax
    ensures (inMin <= x <= inMax || inMax <= x <= inMin) && outMin <= outMax ==> outMin <= r <= outMax
  {
    MapFacts(x, inMin, inMax, outMin, outMax);
    TruncDiv((x - inMin) * (outMax - outMin), inMax - inMin) + outMin
  }

  lemma MapFacts(x: int, inMin: int, inMax: int, outMin: int, outMax: int)
    requires inMin != inMax
    ensures x == inMin ==> TruncDiv((x - inMin) * (outMax - outMin), inMax - inMin) == 0
    ensures x == inMax ==> TruncDiv((x - inMin) * (outMax - outMin), inMax - inMin) == outMax - outMin
    ensures (inMin <= x <= inMax || inMax <= x <= inMin) && outMin <= outMax
            ==> 0 <= TruncDiv((x - inMin) * (outMax - outMin), inMax - inMin) <= outMax - outMin
  {
    if x == inMin {
      assert (x - inMin) * (outMax - outMin) == 0;
    } else if x == inMax {
      MapEndpoint(inMin, inMax, outMin, outMax);
    }
    MapWithin(x, inMin, inMax, outMin, outMax);
  }

  lemma MapEndpoint(inMin: int, inMax: int, outMin: int, outMax: int)
    requires inMin != inMax
    ensures TruncDiv((inMax - inMin) * (outMax - outMin), inMax - inMin) == outMax - outMin
  {
    assert (inMax - inMin) * (outMax - outMin) == (outMax - outMin) * (inMax - inMin);
    TruncDivExact(outMax - outMin, inMax - inMin);
  }

  lemma MapWithin(x: int, inMin: int, inMax: int, outMin: int, outMax: int)
    requires inMin != inMax
    ensures (inMin <= x <= inMax || inMax <= x <= inMin) && outMin <= outMax
            ==> 0 <= TruncDiv((x - inMin) * (outMax - outMin), inMax - inMin) <= outMax - outMin
  {
    if !((inMin <= x <= inMax || inMax <= x <= inMin) && outMin <= outMax) {
      return;
    }
    var a, w, b := x - inMin, outMax - outMin, inMax - inMin;
    if inMin < inMax {
      ScaledWithin(a, w, b);
    } else {
      ScaledWithinDescending(a, w, b);
    }
  }

  /** The offset scaled into an ascending input range of width `b`. */
  lemma ScaledWithin(a: int, w: int, b: int)
    requires 0 <= a <= b && 0 < b && 0 <= w
    ensures 0 <= TruncDiv(a * w, b) <= w
  {
    assert 0 <= a * w <= b * w by {
      assert b * w - a * w == (b - a) * w;
    }
    TruncDivNonNegative(a * w, b);
    DivAtMost(a * w, b, w);
  }

  /** The offset scaled into a descending input range: the offset and the
      width `b` are both negative, so the quotient is that of their sizes. */
  lemma ScaledWithinDescending(a: int, w: int, b: int)
    requires b <= a <= 0 && b < 0 && 0 <= w
    ensures 0 <= TruncDiv(a * w, b) <= w
  {
    var n := (-a) * w;
    assert a * w == -n;
    assert 0 <= n <= (-b) * w by {
      assert (-b) * w - n == (a - b) * w;
    }
    TruncDivBothNegative(n, -b);
    DivAtMost(n, -b, w);
  }

  /** The value `set_spos` finally applies for command `p`. */
  function Clamp(p: int, lo: int, hi: int): (r: int)
    ensures lo <= hi ==> lo <= r <= hi
  {
    if p < lo then lo else if p > hi then hi else p
  }

  /** The clamped value is the value within the bounds nearest to `p`. */
  lemma ClampIsNearest(p: int, lo: int, hi: int, q: int)
    requires lo <= q <= hi
    ensures Distance(p, Clamp(p, lo, hi)) <= Distance(p, q)
  {
  }

  function Distance(a: int, b: int): nat
  {
    Abs(a - b)
  }

  predicate InRange(p: int, lo: int, hi: int)
  {
    lo <= p <= hi
  }

  /** `set_dpos`: degree `dpos` in 0..180 onto the configured pulse range. */
  function DegreeToPulse(dpos: int, lo: U16, hi: U16): (p: int)
    requires 0 <= dpos <= 180
    ensures lo <= hi ==> lo <= p <= hi
  {
    ArduinoMap(dpos, 0, 180, lo, hi)
  }

  /** The degree scale hits both configured bounds exactly, and with the
      default 500..2500 range puts 90 degrees at 1500. */
  lemma DegreeEndpoints(lo: U16, hi: U16)
    ensures DegreeToPulse(0, lo, hi) == lo
    ensures DegreeToPulse(180, lo, hi) == hi
    ensures DegreeToPulse(90, SPOS_MIN, SPOS_MAX) == 1500
  {
    assert TruncDiv(90 * 2000, 180) == 1000;
  }

  /** A larger degree never yields a smaller pulse. */
  lemma DegreeMonotonic(a: int, b: int, lo: U16, hi: U16)
    requires 0 <= a <= b <= 180 && lo <= hi
    ensures DegreeToPulse(a, lo, hi) <= DegreeToPulse(b, lo, hi)
  {
    var w := hi - lo;
    assert a * w <= b * w by {
      assert (b - a) * w >= 0;
    }
    TruncDivNonNegative(a * w, 180);
    TruncDivNonNegative(b * w, 180);
    DivMonotone(a * w, b * w, 180);
  }

  /** The sign applied to a relative offset: clockwise servos run negative. */
  function Direction(d: ServoData): int
  {
    if d.isClockwise then -1 else 1
  }

  /** `set_rpos`: the offset is negated (in `int16_t`) on a clockwise servo
      and added to `spos_zero`; the sum is narrowed to the `uint16_t`
      argument of `set_spos`. The result agrees with `spos_zero ± r` modulo
      2^16, and equals it whenever that is a valid `uint16_t`, except for
      the offset -32768 on a clockwise servo, whose negation overflows. */
  function RelativeToPulse(d: ServoData, r: I16): (p: U16)
    ensures (p - (d.sposZero + Direction(d) * r)) % TWO16 == 0
    ensures 0 <= d.sposZero + Direction(d) * r < TWO16 && (r != -0x8000 || !d.isClockwise)
            ==> p == d.sposZero + Direction(d) * r
  {
    var signed := if d.isClockwise then ToInt16(r * -1) else r;
    RelativeCongruence(d, r, signed, Wrap16(d.sposZero + signed));
    Wrap16(d.sposZero + signed)
  }

  lemma RelativeCongruence(d: ServoData, r: I16, signed: I16, p: U16)
    requires signed == if d.isClockwise then ToInt16(r * -1) else r
    requires p == Wrap16(d.sposZero + signed)
    ensures (p - (d.sposZero + Direction(d) * r)) % TWO16 == 0
  {
    CongruentNeg(d.sposZero + signed - p);
    if d.isClockwise {
      CongruentSum(p - (d.sposZero + signed), r * -1 - signed);
      assert p - (d.sposZero + Direction(d) * r)
          == (p - (d.sposZero + signed)) - (r * -1 - signed);
      CongruentNeg(r * -1 - signed);
      CongruentSum(p - (d.sposZero + signed), -(r * -1 - signed));
    }
  }

  /** `get_rpos` from the pulse `get_spos` reports: zero while uncalibrated,
      otherwise the distance from `spos_zero`, sign-adjusted and narrowed
      to `int16_t`. */
  function PulseToRelative(d: ServoData, p: U16): (r: I16)
    ensures !d.isCalibrated ==> r == 0
    ensures d.isCalibrated && -0x8000 <= Direction(d) * (p - d.sposZero) < 0x8000
            ==> r == Direction(d) * (p - d.sposZero)
  {
    if !d.isCalibrated then 0
    else ToInt16((if d.isClockwise then 1 else -1) * (d.sposZero - p))
  }

  /** Reading back the pulse a relative command produced returns the
      offset, for every offset and either direction: the uint16 and int16
      wrap-arounds on the way out and on the way back cancel. */
  lemma {:induction false} RelativeRoundTrip(d: ServoData, r: I16)
    requires d.isCalibrated
    ensures PulseToRelative(d, RelativeToPulse(d, r)) == r
  {
    var p := RelativeToPulse(d, r);
    var back := PulseToRelative(d, p);
    var s := if d.isClockwise then -1 else 1;
    // back ≡ -s * (sposZero - p) and p ≡ sposZero + s * r, so back ≡ r.
    assert (s * (p - d.sposZero) - back) % TWO16 == 0 by {
      assert (if d.isClockwise then 1 else -1) * (d.sposZero - p) == s * (p - d.sposZero);
    }
    assert (s * (p - (d.sposZero + s * r))) % TWO16 == 0 by {
      if s == -1 {
        CongruentNeg(p - (d.sposZero + s * r));
      }
    }
    assert s * (p - d.sposZero) - back - s * (p - (d.sposZero + s * r)) == r - back;
    CongruentNeg(s * (p - (d.sposZero + s * r)));
    CongruentSum(s * (p - d.sposZero) - back, -(s * (p - (d.sposZero + s * r))));
    Congruent16(r, back);
  }

  /** An offset that takes the target below pulse 0 wraps to a large
      `uint16_t`, which `set_spos` clamps to `spos_max`, the bound on the
      far side. With the defaults, offset 2000 on the clockwise servo
      (target -500) lands on 2500, not 500. */
  lemma WrappedOffsetClampsHigh(d: ServoData, r: I16)
    requires d.sposMin <= d.sposMax < 0x8000
    requires d.sposZero + Direction(d) * r < 0
    ensures Clamp(RelativeToPulse(d, r), d.sposMin, d.sposMax) == d.sposMax
    ensures Clamp(RelativeToPulse(Defaults(d.signalPin, d.feedbackPin), 2000), SPOS_MIN, SPOS_MAX) == SPOS_MAX
  {
    var p := RelativeToPulse(d, r);
    var t := d.sposZero + Direction(d) * r;
    assert -0x8000 <= t;
    var k := (p - t) / TWO16;
    assert p - t == TWO16 * k;
    assert p >= 0x8000;
  }

  /** `get_spos` with feedback: the averaged reading mapped from the
      feedback anchors onto the pulse bounds, narrowed to `uint16_t`. */
  function FeedbackToPulse(d: ServoData, f: U16): (p: U16)
    requires d.fposMin != d.fposMax
    ensures f == d.fposMin ==> p == d.sposMin
    ensures f == d.fposMax ==> p == d.sposMax
    ensures (d.fposMin <= f <= d.fposMax || d.fposMax <= f <= d.fposMin) && d.sposMin <= d.sposMax
            ==> d.sposMin <= p <= d.sposMax
  {
    Wrap16(ArduinoMap(f, d.fposMin, d.fposMax, d.sposMin, d.sposMax))
  }

  /** `_approx_border`: given the zero point `(p0, f0)` and a sampled point
      `(p1, f1)`, the feedback at pulse `p2` by extending the line through
      them from the sampled point. The differences are `int32_t`; their
      product wraps as a 32-bit product does, the quotient truncates, and
      the sum is returned as `int16_t`. `p1 == p0` would divide by zero. */
  function ApproxBorder(p0: I16, p1: I16, p2: I16, f0: I16, f1: I16): (r: I16)
    requires p1 != p0
    ensures r == ToInt16(f1 + TruncDiv(ToInt32((f1 - f0) * (p2 - p1)), p1 - p0))
    ensures p2 == p1 ==> r == f1
    ensures f1 == f0 ==> r == f1
  {
    var run := p1 - p0;
    var ahead := p2 - p1;
    var rise := f1 - f0;
    assert ahead == 0 || rise == 0 ==> rise * ahead == 0;
    TruncDivOfZero(run);
    ToInt16(f1 + TruncDiv(ToInt32(rise * ahead), run))
  }

  /** On exactly linear data the extrapolation is exact: if `(p2, f2)` lies
      on the line through `(p0, f0)` and `(p1, f1)`, the border estimate is
      `f2`, provided the intermediate product fits its 32 bits. */
  lemma {:induction false} ApproxBorderOnLine(p0: I16, p1: I16, p2: I16, f0: I16, f1: I16, f2: I16)
    requires p1 != p0
    requires (f2 - f1) * (p1 - p0) == (f1 - f0) * (p2 - p1)
    requires Abs((f1 - f0) * (p2 - p1)) < 0x8000_0000
    ensures ApproxBorder(p0, p1, p2, f0, f1) == f2
  {
    var product := (f1 - f0) * (p2 - p1);
    assert ToInt32(product) == product;
    TruncDivExact(f2 - f1, p1 - p0);
    assert TruncDiv(product, p1 - p0) == f2 - f1;
  }
}
