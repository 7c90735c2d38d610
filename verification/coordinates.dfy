/**
 * The catch form's conversions between decimal degrees and degrees, minutes and
 * seconds, over exact reals.
 */
module Coordinates {

  /** The `Array<Number>` of `coordsDecimaltoDegrees`: whole degrees, whole minutes, seconds. */
  datatype Dms = Dms(degrees: int, minutes: int, seconds: real)

  /**
   * `coordsDecimaltoDegrees(decimalCoord)`: degrees are the floor of the coordinate
   * (so a negative coordinate has negative degrees and positive minutes), minutes the
   * floor of the remaining fraction times 60, seconds what is left, times 3600.
   */
  function CoordsDecimalToDegrees(decimalCoord: real): (r: Dms)
    ensures r.degrees as real <= decimalCoord < r.degrees as real + 1.0
    ensures 0 <= r.minutes <= 59
    ensures 0.0 <= r.seconds < 60.0
  {
    var degrees := decimalCoord.Floor;
    var minutes := ((decimalCoord - degrees as real) * 60.0).Floor;
    var seconds := (decimalCoord - degrees as real - minutes as real / 60.0) * 3600.0;
    Dms(degrees, minutes, seconds)
  }

  /** `coordsDegreestoDecimal(degrees, minutes, seconds = 0.0)`. */
  function CoordsDegreesToDecimal(degrees: int, minutes: int, seconds: real := 0.0): (r: real)
    ensures 0 <= minutes <= 59 && 0.0 <= seconds < 60.0 ==> degrees as real <= r < degrees as real + 1.0
  {
    degrees as real + minutes as real / 60.0 + seconds / 3600.0
  }

  /** Converting to degrees, minutes and seconds and back gives the coordinate again. */
  lemma DecimalRoundTrip(x: real)
    ensures var d := CoordsDecimalToDegrees(x);
      CoordsDegreesToDecimal(d.degrees, d.minutes, d.seconds) == x
  {
  }

  /**
   * Conversely, any degrees, minutes in [0, 59] and seconds in [0, 60) come back
   * unchanged: the decomposition is unique.
   */
  lemma DegreesRoundTrip(degrees: int, minutes: int, seconds: real)
    requires 0 <= minutes <= 59 && 0.0 <= seconds < 60.0
    ensures CoordsDecimalToDegrees(CoordsDegreesToDecimal(degrees, minutes, seconds)) == Dms(degrees, minutes, seconds)
  {
    var x := CoordsDegreesToDecimal(degrees, minutes, seconds);
    assert x.Floor == degrees;
    var f := (x - degrees as real) * 60.0;
    assert f == minutes as real + seconds / 60.0;
    assert f.Floor == minutes;
  }

  /** Whole degrees and minutes only: seconds default to zero. */
  lemma WholeMinutes(degrees: int, minutes: int)
    requires 0 <= minutes <= 59
    ensures CoordsDecimalToDegrees(CoordsDegreesToDecimal(degrees, minutes)).seconds == 0.0
  {
    DegreesRoundTrip(degrees, minutes, 0.0);
  }
}
