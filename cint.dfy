/** Integer semantics of the C++ target the controller is compiled for:
    the fixed-width integer types it uses, the narrowing conversions between
    them, and integer division, which in C++ truncates toward zero (Dafny's
    `/` is Euclidean). */
module CInt {

  type U8 = x: int | 0 <= x < 0x100
  type U16 = x: int | 0 <= x < 0x1_0000
  type I16 = x: int | -0x8000 <= x < 0x8000

  const TWO16: int := 0x1_0000
  const TWO32: int := 0x1_0000_0000

  function Abs(x: int): nat
  {
    if x < 0 then -x else x
  }

  /** Conversion of any integer to `uint16_t`: reduction modulo 2^16. */
  function Wrap16(x: int): (r: U16)
    ensures (x - r) % TWO16 == 0
    ensures 0 <= x < TWO16 ==> r == x
  {
    x % TWO16
  }

  /** Conversion of any integer to `int16_t` (two's complement). */
  function ToInt16(x: int): (r: I16)
    ensures (x - r) % TWO16 == 0
    ensures -0x8000 <= x < 0x8000 ==> r == x
  {
    (x + 0x8000) % TWO16 - 0x8000
  }

  /** Conversion of any integer to `int32_t` (two's complement). */
  function ToInt32(x: int): (r: int)
    ensures -0x8000_0000 <= r < 0x8000_0000
    ensures (x - r) % TWO32 == 0
    ensures -0x8000_0000 <= x < 0x8000_0000 ==> r == x
  {
    (x + 0x8000_0000) % TWO32 - 0x8000_0000
  }

  /** A `uint16_t` read as `int16_t` is itself below 2^15 and wraps to a
      negative value above; narrowing it back gives the original value. */
  lemma Int16OfU16(a: U16)
    ensures ToInt16(a) == if a < 0x8000 then a else a - TWO16
    ensures Wrap16(ToInt16(a)) == a
  {
    if a >= 0x8000 {
      assert (a + 0x8000) % TWO16 == a + 0x8000 - TWO16;
      assert (a - TWO16) % TWO16 == a;
    }
  }

  /** An `int16_t` stored in a `uint16_t` and read back as `int16_t` is
      unchanged. */
  lemma Int16RoundTrip(v: I16)
    ensures ToInt16(Wrap16(v)) == v
  {
    if v < 0 {
      assert v % TWO16 == v + TWO16;
      Int16OfU16(v + TWO16);
    }
  }

  /** C++ integer division: the quotient is rounded toward zero, so `q * b`
      lies between 0 and `a` and misses `a` by less than `|b|`. */
  function TruncDiv(a: int, b: int): (q: int)
    requires b != 0
    ensures Abs(a - q * b) < Abs(b)
    ensures 0 <= q * b <= a || a <= q * b <= 0
  {
    var m := Abs(a) / Abs(b);
    TruncDivBounds(a, b, m);
    TruncDivSign(a, b, m);
    if (a < 0) == (b < 0) then m else -m
  }

  /** Zero divided by anything is zero. */
  lemma TruncDivOfZero(b: int)
    requires b != 0
    ensures TruncDiv(0, b) == 0
  {
  }

  /** The truncated quotient times the divisor has the sign of the
      dividend and the size of `m * |b|`. */
  lemma TruncDivSign(a: int, b: int, m: int)
    requires b != 0
    ensures (if (a < 0) == (b < 0) then m else -m) * b == if a < 0 then -(m * Abs(b)) else m * Abs(b)
  {
    if b < 0 {
      assert m * b == -(m * Abs(b));
      assert -m * b == m * Abs(b);
    }
  }

  lemma TruncDivBounds(a: int, b: int, m: int)
    requires b != 0 && m == Abs(a) / Abs(b)
    ensures 0 <= m * Abs(b) <= Abs(a) < m * Abs(b) + Abs(b)
  {
  }

  /** Two 16-bit values that agree modulo 2^16 are equal: the narrowing
      conversions lose nothing on values already in range. */
  lemma {:induction false} Congruent16(a: int, b: int)
    requires -0x8000 <= a < 0x8000 && -0x8000 <= b < 0x8000
    requires (a - b) % TWO16 == 0
    ensures a == b
  {
    var k := (a - b) / TWO16;
    assert a - b == TWO16 * k;
  }

  /** Congruence modulo 2^16 is closed under sums. */
  lemma {:induction false} CongruentSum(x: int, y: int)
    requires x % TWO16 == 0 && y % TWO16 == 0
    ensures (x + y) % TWO16 == 0
  {
    var i, j := x / TWO16, y / TWO16;
    assert x == TWO16 * i && y == TWO16 * j;
    assert x + y == TWO16 * (i + j);
  }

  /** A difference divisible by 2^16 stays divisible after negation. */
  lemma {:induction false} CongruentNeg(x: int)
    requires x % TWO16 == 0
    ensures (-x) % TWO16 == 0
  {
    var i := x / TWO16;
    assert x == TWO16 * i;
    assert -x == TWO16 * (-i);
  }

  /** Exact quotients survive truncating division unchanged. */
  lemma {:induction false} TruncDivExact(q: int, b: int)
    requires b != 0
    ensures TruncDiv(q * b, b) == q
  {
    var r := TruncDiv(q * b, b);
    assert Abs(q * b - r * b) < Abs(b);
    assert q * b - r * b == (q - r) * b;
    if q - r >= 1 || q - r <= -1 {
      AbsProductAtLeast(q - r, b);
    }
  }

  lemma AbsProductAtLeast(k: int, b: int)
    requires k != 0
    ensures Abs(k * b) >= Abs(b)
  {
    if k > 0 {
      if b >= 0 { assert k * b >= b; } else { assert k * b <= b; }
    } else {
      if b >= 0 { assert k * b <= -b; } else { assert k * b >= -b; }
    }
  }

  /** On non-negative operands truncation and Euclidean division agree. */
  lemma TruncDivNonNegative(a: int, b: int)
    requires a >= 0 && b > 0
    ensures TruncDiv(a, b) == a / b
  {
  }

  /** A negative dividend over a negative divisor: truncation and
      Euclidean division of the magnitudes agree. */
  lemma TruncDivBothNegative(n: int, b: int)
    requires n >= 0 && b > 0
    ensures TruncDiv(-n, -b) == n / b
  {
  }

  /** `n / b <= w` whenever `n <= b * w`. */
  lemma DivAtMost(n: int, b: int, w: int)
    requires 0 <= n <= b * w && b > 0
    ensures n / b <= w
  {
    var q := n / b;
    assert q * b <= n;
    assert (w - q) * b == b * w - q * b;
    PositiveFactor(w - q + 1, b);
  }

  /** With a positive factor `b`, the product `k * b` has the sign of `k`. */
  lemma PositiveFactor(k: int, b: int)
    requires b > 0
    ensures k <= 0 ==> k * b <= 0
    ensures k >= 1 ==> k * b >= b
  {
  }

  /** Euclidean division by a positive divisor is monotonic. */
  lemma DivMonotone(m: int, n: int, b: int)
    requires 0 <= m <= n && b > 0
    ensures m / b <= n / b
  {
    var qm, qn := m / b, n / b;
    assert qm * b <= m && n < qn * b + b;
    assert (qn + 1 - qm) * b == qn * b + b - qm * b;
    PositiveFactor(qn + 1 - qm, b);
  }

  /** `n / b >= w` whenever `n >= b * w`. */
  lemma DivAtLeast(n: int, b: int, w: int)
    requires 0 <= b * w <= n && b > 0
    ensures n / b >= w
  {
    var q := n / b;
    assert n < q * b + b;
    assert (q + 1 - w) * b == q * b + b - b * w;
    PositiveFactor(q + 1 - w, b);
  }
}
