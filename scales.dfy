/** The integer clamps and scales drivers use to map raw readings onto
    percentages and degrees. JavaScript's `Math.floor` and `Math.round` of a
    quotient are written out over integers. */
module Scales {

  /** `Math.floor(a / b)`. */
  function FloorDiv(a: int, b: int): (q: int)
    requires b != 0
    ensures b > 0 ==> q * b <= a < q * b + b
    ensures b < 0 ==> q * b >= a > q * b + b
  {
    if b > 0 then a / b else (-a) / (-b)
  }

  /** `Math.round(a / b)`, which rounds halves up: `Math.floor(a / b + 1/2)`. */
  function Round(a: int, b: int): (r: int)
    requires b > 0
    ensures 2 * r * b <= 2 * a + b < 2 * r * b + 2 * b
  {
    FloorDiv(2 * a + b, 2 * b)
  }

  /** `boundedValue(value, lower, upper)`. */
  function BoundedValue(value: int, lower: int, upper: int): (r: int)
    ensures lower <= upper ==> lower <= r <= upper
    ensures lower <= value <= upper ==> r == value
    ensures lower <= upper ==> forall y :: lower <= y <= upper ==> Dist(r, value) <= Dist(y, value)
  {
    if value < lower then lower else if upper < value then upper else value
  }

  function Dist(x: int, y: int): nat {
    if x < y then y - x else x - y
  }

  /** `percentageValue(value, maximum)`. */
  function PercentageValue(value: int, maximum: int): (r: int)
    requires maximum != 0
    ensures maximum > 0 ==> 0 <= r <= 100
    ensures 0 < maximum && 0 <= value <= maximum ==>
              r * maximum <= value * 100 < r * maximum + maximum
  {
    FloorDiv(BoundedValue(value, 0, maximum) * 100, maximum)
  }

  /** `scaledPercentage(percentage, minimum, maximum)`. */
  function ScaledPercentage(percentage: int, minimum: int, maximum: int): (r: int)
    ensures minimum <= maximum ==> minimum <= r <= maximum
    ensures minimum <= 0 <= maximum && 0 <= percentage <= 100 ==>
              2 * r * 100 <= 2 * percentage * maximum + 100 < 2 * r * 100 + 200
  {
    var p := BoundedValue(percentage, 0, 100);
    if maximum >= 0 then
      RoundScaled(p, maximum, 100);
      BoundedValue(Round(p * maximum, 100), minimum, maximum)
    else
      BoundedValue(Round(p * maximum, 100), minimum, maximum)
  }

  /** `degreesValue(value, maximum)`. */
  function DegreesValue(value: int, maximum: int): (r: int)
    requires maximum != 0
    ensures maximum > 0 ==> 0 <= r <= 360
    ensures 0 < maximum && 0 <= value <= maximum ==>
              r * maximum <= value * 360 < r * maximum + maximum
  {
    FloorDiv(BoundedValue(value, 0, maximum) * 360, maximum)
  }

  /** The degrees after the two normalising loops of `scaledDegrees`. */
  function Normalized(degrees: int): (d: int)
    ensures 0 <= d < 360
    ensures (d - degrees) % 360 == 0
  {
    degrees % 360
  }

  /** The two loops at the start of `scaledDegrees`, which bring the
      degrees into `[0, 360)` by whole turns. */
  method Normalize(degrees: int) returns (d: int)
    ensures d == Normalized(degrees)
  {
    d := degrees;
    while d < 0
      invariant d % 360 == degrees % 360
      decreases -d
    {
      d := d + 360;
    }
    while d >= 360
      invariant d >= 0
      invariant d % 360 == degrees % 360
    {
      d := d - 360;
    }
  }

  /** `scaledDegrees(degrees, maximum)`. */
  method ScaledDegrees(degrees: int, maximum: int) returns (r: int)
    ensures r == BoundedValue(Round(Normalized(degrees) * maximum, 360), 0, maximum)
    ensures maximum >= 0 ==> 0 <= r <= maximum
    ensures maximum >= 0 ==> r == Round(Normalized(degrees) * maximum, 360)
  {
    var d := Normalize(degrees);
    r := BoundedValue(Round(d * maximum, 360), 0, maximum);
    if maximum >= 0 {
      ScaledDegreesUnclamped(degrees, maximum);
    }
  }

  lemma MulLe(x: int, y: int, c: int)
    requires x <= y && c >= 0
    ensures x * c <= y * c
  {
    assert y * c - x * c == (y - x) * c;
  }

  /** Rounding `x * maximum / base` for `x` in `[0, base]` stays in `[0, maximum]`. */
  lemma RoundScaled(x: int, maximum: int, base: int)
    requires base > 0 && 0 <= x <= base && maximum >= 0
    ensures 0 <= Round(x * maximum, base) <= maximum
  {
    var a := x * maximum;
    var r := Round(a, base);
    MulLe(0, x, maximum);
    MulLe(x, base, maximum);
    assert 0 <= a <= base * maximum;
    assert 2 * r * base == 2 * (r * base);
    assert (maximum + 1) * base == maximum * base + base;
    if r < 0 {
      MulLe(r, -1, base);
    }
    if r > maximum {
      MulLe(maximum + 1, r, base);
    }
  }

  /** For a non-negative maximum the final clamp of `scaledDegrees` never
      bites: the rounded value already lies in `[0, maximum]`. */
  lemma ScaledDegreesUnclamped(degrees: int, maximum: int)
    requires maximum >= 0
    ensures var x := Round(Normalized(degrees) * maximum, 360);
            0 <= x <= maximum
  {
    RoundScaled(Normalized(degrees), maximum, 360);
  }
}
