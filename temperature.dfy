/**
 * Temperature display: the provider reports degrees Celsius, and the dashboard
 * shows them rounded to a whole number, converted to Fahrenheit unless the
 * unit toggle is on Celsius.
 *
 * Temperatures are exact reals, so the conversion has no floating-point
 * error; `Round` is the host's round-half-up rounding.
 */
module Temperature {

  /** Rounding to the nearest integer, halves going up (towards +infinity). */
  function Round(x: real): (n: int)
    ensures x - 0.5 < n as real <= x + 0.5
  {
    (x + 0.5).Floor
  }

  /** The rounding above is the only integer within half a degree, halves up. */
  lemma RoundIsUnique(x: real, n: int)
    requires x - 0.5 < n as real <= x + 0.5
    ensures n == Round(x)
  {
  }

  lemma RoundOfInteger(n: int)
    ensures Round(n as real) == n
  {
    RoundIsUnique(n as real, n);
  }

  lemma RoundIsMonotone(x: real, y: real)
    requires x <= y
    ensures Round(x) <= Round(y)
  {
  }

  /** Conversion from degrees Celsius to degrees Fahrenheit. */
  function Fahrenheit(celsius: real): (f: real)
    ensures (f - 32.0) * 5.0 == celsius * 9.0
  {
    celsius * 9.0 / 5.0 + 32.0
  }

  /** The displayed temperature for a Celsius reading under the selected unit:
      unit "C" shows the reading itself, any other unit its Fahrenheit value,
      in both cases the nearest integer, halves up. */
  function FormatTemp(temp: real, unit: string): (r: int)
    ensures unit == "C" ==> temp - 0.5 < r as real <= temp + 0.5
    ensures unit != "C" ==> Fahrenheit(temp) - 0.5 < r as real <= Fahrenheit(temp) + 0.5
  {
    if unit == "C" then Round(temp) else Round(temp * 9.0 / 5.0 + 32.0)
  }

  /** Freezing and boiling points of water, and the point where the scales meet. */
  lemma FormatTempLandmarks()
    ensures FormatTemp(0.0, "F") == 32
    ensures FormatTemp(100.0, "F") == 212
    ensures FormatTemp(-40.0, "F") == -40
    ensures FormatTemp(100.0, "C") == 100
  {
    RoundOfInteger(32);
    RoundOfInteger(212);
    RoundOfInteger(-40);
    RoundOfInteger(100);
  }

  /** Celsius display is the rounded reading; halves round up, also below zero. */
  lemma FormatTempCelsius(temp: real)
    ensures FormatTemp(temp, "C") == Round(temp)
    ensures FormatTemp(2.5, "C") == 3 && FormatTemp(-2.5, "C") == -2
  {
    RoundIsUnique(2.5, 3);
    RoundIsUnique(-2.5, -2);
  }

  /** A warmer reading never displays as a lower number, in either unit. */
  lemma FormatTempIsMonotone(t1: real, t2: real, unit: string)
    requires t1 <= t2
    ensures FormatTemp(t1, unit) <= FormatTemp(t2, unit)
  {
    if unit == "C" {
      RoundIsMonotone(t1, t2);
    } else {
      RoundIsMonotone(Fahrenheit(t1), Fahrenheit(t2));
    }
  }
}
