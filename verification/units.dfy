/** Numeric helpers of the adapters: Go's `roundDec`, the truncating
    conversions and divisions Go performs on integers, and the conversions
    from satoshis to bitcoin and from bytes to megabytes. All arithmetic is
    exact: reals stand for the float64 values of the source. */
module Units {

  const SatsPerBtc: nat := 100000000
  const BytesPerMegabyte: nat := 1000000

  function Abs(x: real): real {
    if x < 0.0 then -x else x
  }

  function Power10(d: nat): (p: nat)
    ensures p >= 1
  {
    if d == 0 then 1 else 10 * Power10(d - 1)
  }

  /** Ten to the power `d`, the scale `roundDec` multiplies by. */
  function Pow10(d: nat): (p: real)
    ensures p >= 1.0
  {
    Power10(d) as real
  }

  /** The largest distance `RoundDec(_, d)` may move a value: half a unit
      in the d-th decimal place. */
  function HalfUnit(d: nat): real {
    0.5 / Pow10(d)
  }

  predicate IsInteger(y: real) {
    y.Floor as real == y
  }

  /** `r` has no non-zero digit after the d-th decimal place. */
  predicate HasDecimals(r: real, d: nat) {
    IsInteger(r * Pow10(d))
  }

  /** `math.Round`: the nearest integer, halves rounded away from zero. */
  function Round(y: real): (n: int)
    ensures Abs(n as real - y) <= 0.5
    ensures Abs(n as real - y) == 0.5 ==> Abs(n as real) > Abs(y)
    ensures y >= 0.0 ==> n >= 0
    ensures y <= 0.0 ==> n <= 0
  {
    if y >= 0.0 then (y + 0.5).Floor else -((0.5 - y).Floor)
  }

  /** Rounding to the nearest integer with ties away from zero has exactly
      one answer, so any integer with those two properties is `Round(y)`. */
  lemma RoundIsUnique(y: real, m: int)
    requires Abs(m as real - y) <= 0.5
    requires Abs(m as real - y) == 0.5 ==> Abs(m as real) > Abs(y)
    ensures m == Round(y)
  {
  }

  lemma DivideCancels(a: real, p: real)
    requires p > 0.0
    ensures (a / p) * p == a
  {
  }

  lemma MultiplyCancels(a: real, p: real)
    requires p > 0.0
    ensures (a * p) / p == a
  {
  }

  lemma DivideDistributes(a: real, x: real, p: real)
    requires p > 0.0
    ensures a / p - x == (a - x * p) / p
  {
  }

  lemma MultiplyKeepsSign(x: real, p: real)
    requires p > 0.0
    ensures x >= 0.0 ==> x * p >= 0.0
    ensures x <= 0.0 ==> x * p <= 0.0
  {
  }

  lemma DivideKeepsSign(a: real, p: real)
    requires p > 0.0
    ensures a >= 0.0 ==> a / p >= 0.0
    ensures a <= 0.0 ==> a / p <= 0.0
  {
  }

  lemma DivideBound(a: real, b: real, p: real)
    requires p > 0.0 && Abs(a) <= b
    ensures Abs(a / p) <= b / p
  {
    if a >= 0.0 {
      assert a / p <= b / p;
    } else {
      assert -a / p <= b / p;
    }
  }

  lemma AbsScales(a: real, p: real)
    requires p > 0.0
    ensures Abs(a * p) == Abs(a) * p
    ensures Abs(a / p) == Abs(a) / p
  {
  }

  lemma DivideStrict(a: real, b: real, p: real)
    requires p > 0.0 && a > b
    ensures a / p > b / p
  {
  }

  /** What rounding `x` to `d` decimal places promises of its result `r`:
      at most `d` decimals, within half a unit of `x`, farther from zero
      than `x` when exactly half a unit away, and the sign of `x`. */
  predicate IsRoundingOf(r: real, x: real, d: nat) {
    && HasDecimals(r, d)
    && Abs(r - x) <= HalfUnit(d)
    && (Abs(r - x) == HalfUnit(d) ==> Abs(r) > Abs(x))
    && (x >= 0.0 ==> r >= 0.0)
    && (x <= 0.0 ==> r <= 0.0)
  }

  /** Rounding `x * p` to an integer and dividing by `p` again moves `x` by
      at most `0.5 / p` and lands on a multiple of `1 / p`. */
  lemma ScaledRounding(x: real, p: real)
    requires p > 0.0
    ensures IsInteger((Round(x * p) as real / p) * p)
    ensures Abs(Round(x * p) as real / p - x) <= 0.5 / p
    ensures x >= 0.0 ==> Round(x * p) as real / p >= 0.0
    ensures x <= 0.0 ==> Round(x * p) as real / p <= 0.0
    ensures Abs(Round(x * p) as real / p - x) == 0.5 / p ==> Abs(Round(x * p) as real / p) > Abs(x)
  {
    var n := Round(x * p);
    DivideCancels(n as real, p);
    DivideDistributes(n as real, x, p);
    DivideBound(n as real - x * p, 0.5, p);
    MultiplyKeepsSign(x, p);
    DivideKeepsSign(n as real, p);
    if Abs(n as real / p - x) == 0.5 / p {
      var y := x * p;
      AbsScales(n as real - y, p);
      assert Abs(n as real - y) / p == 0.5 / p;
      MultiplyCancels(Abs(n as real - y), p);
      MultiplyCancels(0.5, p);
      assert Abs(n as real - y) == 0.5;
      assert Abs(n as real) > Abs(y);
      DivideStrict(Abs(n as real), Abs(y), p);
      AbsScales(n as real, p);
      AbsScales(x, p);
      MultiplyCancels(Abs(x), p);
    }
  }

  lemma DecimalRounding(x: real, d: nat)
    ensures IsRoundingOf(Round(x * Pow10(d)) as real / Pow10(d), x, d)
  {
    ScaledRounding(x, Pow10(d));
    assert HalfUnit(d) == 0.5 / Pow10(d);
  }

  /** `roundDec(x, d)`: `x` rounded to `d` decimal places. */
  function RoundDec(x: real, d: nat): (r: real)
    ensures IsRoundingOf(r, x, d)
  {
    DecimalRounding(x, d);
    Round(x * Pow10(d)) as real / Pow10(d)
  }

  /** `r` is a multiple of `1 / p` within `0.5 / p` of `x`, farther from
      zero than `x` when exactly that far away. */
  predicate IsScaledRounding(r: real, x: real, p: real) {
    && p > 0.0
    && IsInteger(r * p)
    && Abs(r - x) <= 0.5 / p
    && (Abs(r - x) == 0.5 / p ==> Abs(r) > Abs(x))
  }

  /** Scaled by `p`, the distance from `r` to `x` is the distance from the
      integer `m = r * p` to `x * p`, and so at most a half. */
  lemma ScaledError(x: real, p: real, r: real, m: int)
    requires IsScaledRounding(r, x, p) && r * p == m as real
    ensures Abs(m as real - x * p) <= 0.5
    ensures Abs(m as real - x * p) == 0.5 ==> Abs(m as real) > Abs(x * p)
  {
    var e := m as real - x * p;
    assert e == (r - x) * p;
    AbsScales(r - x, p);
    DivideCancels(0.5, p);
    assert Abs(e) <= 0.5 by {
      assert Abs(r - x) * p <= (0.5 / p) * p;
    }
    if Abs(e) == 0.5 {
      assert Abs(r - x) * p == (0.5 / p) * p;
      assert Abs(r - x) == 0.5 / p;
      AbsScales(r, p);
      AbsScales(x, p);
      assert Abs(m as real) == Abs(r) * p;
    }
  }

  /** Such an `r` is `Round(x * p) / p`. */
  lemma ScaledUniqueness(x: real, p: real, r: real)
    requires IsScaledRounding(r, x, p)
    ensures r == Round(x * p) as real / p
  {
    var m := (r * p).Floor;
    ScaledError(x, p, r, m);
    RoundIsUnique(x * p, m);
    MultiplyCancels(r, p);
  }

  /** The rounding properties of `r` restated at the scale `Pow10(d)`. */
  lemma RoundingAtScale(r: real, x: real, d: nat)
    requires IsRoundingOf(r, x, d)
    ensures IsScaledRounding(r, x, Pow10(d))
  {
    assert HalfUnit(d) == 0.5 / Pow10(d);
  }

  /** `ScaledUniqueness` at the scale `RoundDec(_, d)` works at. */
  lemma DecimalUniqueness(x: real, d: nat, r: real)
    requires IsScaledRounding(r, x, Pow10(d))
    ensures r == RoundDec(x, d)
  {
    ScaledUniqueness(x, Pow10(d), r);
    RoundDecAtScale(x, d);
  }

  lemma RoundDecAtScale(x: real, d: nat)
    ensures RoundDec(x, d) == Round(x * Pow10(d)) as real / Pow10(d)
  {
  }

  /** The rounding properties fix the result: any `r` meeting them is
      `RoundDec(x, d)`. */
  lemma RoundDecIsUnique(x: real, d: nat, r: real)
    requires IsRoundingOf(r, x, d)
    ensures r == RoundDec(x, d)
  {
    RoundingAtScale(r, x, d);
    DecimalUniqueness(x, d, r);
  }

  /** A value that already has at most `d` decimals is left alone. */
  lemma RoundDecKeepsRounded(x: real, d: nat)
    requires HasDecimals(x, d)
    ensures RoundDec(x, d) == x
  {
    var k := (x * Pow10(d)).Floor;
    RoundIsUnique(x * Pow10(d), k);
    MultiplyCancels(x, Pow10(d));
  }

  /** Rounding is idempotent. */
  lemma RoundDecIdempotent(x: real, d: nat)
    ensures RoundDec(RoundDec(x, d), d) == RoundDec(x, d)
  {
    RoundDecKeepsRounded(RoundDec(x, d), d);
  }

  /** Go's conversion of a float to an integer: the fraction is dropped,
      which rounds towards zero. */
  function Truncate(x: real): (t: int)
    ensures Abs(t as real) <= Abs(x) < Abs(t as real) + 1.0
    ensures x >= 0.0 ==> t >= 0
    ensures x <= 0.0 ==> t <= 0
  {
    if x >= 0.0 then x.Floor else -((-x).Floor)
  }

  /** Go's integer division by a positive divisor: the quotient is rounded
      towards zero, unlike Dafny's Euclidean `/` on negative dividends. */
  function GoQuotient(a: int, b: int): (q: int)
    requires b > 0
    ensures a >= 0 ==> 0 <= q * b <= a < (q + 1) * b
    ensures a < 0 ==> (q - 1) * b < a <= q * b <= 0
  {
    if a >= 0 then
      QuotientBounds(a, b);
      a / b
    else
      QuotientBounds(-a, b);
      -((-a) / b)
  }

  lemma QuotientBounds(a: nat, b: int)
    requires b > 0
    ensures 0 <= (a / b) * b <= a < (a / b + 1) * b
  {
    var q := a / b;
    assert a == q * b + a % b;
    assert (q + 1) * b == q * b + b;
  }

  /** Satoshis as bitcoin; multiplying back recovers the satoshi amount. */
  function SatsToBtc(sats: int): (btc: real)
    ensures btc * (SatsPerBtc as real) == sats as real
  {
    sats as real / (SatsPerBtc as real)
  }

  /** Bytes (or virtual bytes) as megabytes. */
  function BytesToMegabytes(bytes: int): (mb: real)
    ensures mb * (BytesPerMegabyte as real) == bytes as real
  {
    bytes as real / (BytesPerMegabyte as real)
  }

  /** Converting satoshis to bitcoin, rounding to 3 decimals and converting
      back loses at most 50 000 satoshis (half of 0.001 BTC). */
  lemma SatsRoundTripTolerance(sats: int)
    ensures Abs(RoundDec(SatsToBtc(sats), 3) * (SatsPerBtc as real) - sats as real) <= 50000.0
  {
    var btc := SatsToBtc(sats);
    var r := RoundDec(btc, 3);
    assert Pow10(3) == 1000.0;
    assert Abs(r - btc) <= 0.0005;
    assert r * 100000000.0 - sats as real == (r - btc) * 100000000.0;
  }

  /** The same for bytes rounded to 2 decimals of a megabyte: at most 5 000. */
  lemma BytesRoundTripTolerance(bytes: int)
    ensures Abs(RoundDec(BytesToMegabytes(bytes), 2) * (BytesPerMegabyte as real) - bytes as real) <= 5000.0
  {
    var mb := BytesToMegabytes(bytes);
    var r := RoundDec(mb, 2);
    assert Pow10(2) == 100.0;
    assert Abs(r - mb) <= 0.005;
    assert r * 1000000.0 - bytes as real == (r - mb) * 1000000.0;
  }
}
