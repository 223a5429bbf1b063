/**
 * The unit arithmetic of the vitals report (interface/forms/vitals/report.php):
 * US_weight, the lb/kg, in/cm and F/C conversions with their rounding, the four
 * layouts selected by the units_of_measurement setting, and the pediatric test.
 *
 * PHP's number_format, floatval, round(x, n) and float-to-string conversion are
 * kept abstract: they are fields of a Numerics value supplied by the caller, so
 * every statement below holds whatever decimal formatting is used. Only the
 * whole-number round() inside US_weight is made concrete, because the bound on
 * the ounces depends on it.
 */
module VitalsUnits {
  import opened Text

  /** The PHP numeric library functions the report calls. */
  datatype Numerics = Numerics(
    floatval: string -> real,          // floatval
    numberFormat: (real, nat) -> string, // number_format(x, decimals)
    round: (real, nat) -> real,        // round(x, decimals)
    show: real -> string)              // "$x": a float printed by string concatenation

  /** round($x) with no precision: halves are rounded away from zero. */
  function RoundHalfAwayFromZero(x: real): (n: int)
    ensures x - 0.5 <= n as real <= x + 0.5
    ensures x >= 0.0 ==> n >= 0
  {
    if x >= 0.0 then (x + 0.5).Floor else -((-x + 0.5).Floor)
  }

  /** The ounces US_weight prints: the fractional pound times 16, rounded. */
  function Ounces(pounds: real): int
  {
    RoundHalfAwayFromZero((pounds - pounds.Floor as real) * 16.0)
  }

  /** US_weight($pounds, $mode). */
  function USWeight(pounds: real, mode: int, num: Numerics): string
  {
    if mode == 1 then num.show(pounds) + " lb"
    else IntToString(pounds.Floor) + " lb " + IntToString(Ounces(pounds)) + " oz"
  }

  /** The ounces printed in the "lb oz" mode lie in 0..16: sixteen is reachable, fifteen is not the top. */
  lemma OuncesRange(pounds: real)
    ensures 0 <= Ounces(pounds) <= 16
  {
    var frac := pounds - pounds.Floor as real;
    assert 0.0 <= frac < 1.0;
    assert 0.0 <= frac * 16.0 < 16.0;
  }

  /** In "lb oz" mode a whole number of pounds prints with zero ounces: 150 gives "150 lb 0 oz". */
  lemma WholePounds(n: nat, mode: int, num: Numerics)
    requires mode != 1
    ensures USWeight(n as real, mode, num) == NatToString(n) + " lb 0 oz"
  {
    assert (n as real).Floor == n;
    assert Ounces(n as real) == 0;
  }

  lemma WholePounds150(num: Numerics)
    ensures USWeight(150.0, 2, num) == "150 lb 0 oz"
  {
    WholePounds(150, 2, num);
    assert NatToString(150) == "150" by {
      assert NatToString(1) == "1";
      assert NatToString(15) == NatToString(1) + "5";
    }
  }

  /** 150.97 lb prints as "150 lb 16 oz" where 151 lb 0 oz is meant. */
  lemma SixteenOunces(num: Numerics)
    ensures USWeight(150.97, 2, num) == "150 lb 16 oz"
  {
    assert (150.97).Floor == 150;
    assert Ounces(150.97) == 16 by {
      assert (150.97 - 150.0) * 16.0 == 15.52;
      assert (15.52 + 0.5).Floor == 16;
    }
    assert NatToString(150) == "150" by {
      assert NatToString(1) == "1";
      assert NatToString(15) == NatToString(1) + "5";
    }
    assert NatToString(16) == "16" by {
      assert NatToString(1) == "1";
    }
  }

  /** Pounds and ounces with the ounces carried into the pounds: what "lb oz" mode evidently intends. */
  function PoundsOunces(pounds: real): (lo: (int, int))
    ensures 0 <= lo.1 < 16
    ensures lo.0 * 16 + lo.1 == RoundHalfAwayFromZero(pounds * 16.0)
  {
    var total := RoundHalfAwayFromZero(pounds * 16.0);
    (total / 16, total % 16)
  }

  /** US_weight with the ounces carried over into the pounds. */
  function USWeightCarried(pounds: real, mode: int, num: Numerics): string
  {
    if mode == 1 then num.show(pounds) + " lb"
    else
      var lo := PoundsOunces(pounds);
      IntToString(lo.0) + " lb " + IntToString(lo.1) + " oz"
  }

  /**
   * The carried form prints ounces below 16 and is never more than half an
   * ounce away from the weight; for a non-negative weight it agrees with
   * US_weight whenever US_weight prints fewer than 16 ounces.
   */
  lemma CarriedWeightIsExact(pounds: real)
    ensures 0 <= PoundsOunces(pounds).1 < 16
    ensures var lo := PoundsOunces(pounds);
            pounds * 16.0 - 0.5 <= (lo.0 * 16 + lo.1) as real <= pounds * 16.0 + 0.5
    ensures pounds >= 0.0 && Ounces(pounds) < 16 ==> PoundsOunces(pounds) == (pounds.Floor, Ounces(pounds))
  {
    var fl := pounds.Floor;
    var frac := pounds - fl as real;
    var oz := Ounces(pounds);
    OuncesRange(pounds);
    assert pounds * 16.0 == (fl * 16) as real + frac * 16.0;
    assert frac * 16.0 >= 0.0;
    if pounds >= 0.0 && oz < 16 {
      assert RoundHalfAwayFromZero(pounds * 16.0) == fl * 16 + oz by {
        ShiftRound(frac * 16.0, fl * 16);
      }
      assert (fl * 16 + oz) / 16 == fl;
      assert (fl * 16 + oz) % 16 == oz;
    }
  }

  /** With the ounces carried, 150.97 lb reads "151 lb 0 oz". */
  lemma CarriedOf150_97(num: Numerics)
    ensures USWeightCarried(150.97, 2, num) == "151 lb 0 oz"
  {
    assert 150.97 * 16.0 == 2415.52;
    assert RoundHalfAwayFromZero(150.97 * 16.0) == 2416 by {
      assert (2415.52 + 0.5).Floor == 2416;
    }
    assert PoundsOunces(150.97) == (151, 0);
    assert NatToString(151) == "151" by {
      assert NatToString(1) == "1";
      assert NatToString(15) == NatToString(1) + "5";
    }
  }

  /** Rounding a non-negative part commutes with adding a whole number when the sum stays non-negative. */
  lemma ShiftRound(x: real, k: int)
    requires x >= 0.0
    requires x + k as real >= 0.0
    ensures RoundHalfAwayFromZero(x + k as real) == RoundHalfAwayFromZero(x) + k
  {
    assert (x + k as real + 0.5).Floor == (x + 0.5).Floor + k;
  }

  /** The four layouts of units_of_measurement; every value other than 2, 3 and 4 (1 or unset) is "US (metric)". */
  datatype UnitSystem = UsThenMetric | MetricThenUs | UsOnly | MetricOnly

  function UnitSystemOf(units: int): (sys: UnitSystem)
    ensures sys == MetricThenUs <==> units == 2
    ensures sys == UsOnly <==> units == 3
    ensures sys == MetricOnly <==> units == 4
    ensures sys == UsThenMetric <==> units !in {2, 3, 4}
  {
    if units == 2 then MetricThenUs
    else if units == 3 then UsOnly
    else if units == 4 then MetricOnly
    else UsThenMetric
  }

  /** How one measurement is shown in HTML: the primary unit first, the other one in parentheses. */
  function Layout(units: int, us: string, metric: string): string
  {
    match UnitSystemOf(units)
    case MetricThenUs => metric + " (" + us + ")"
    case UsOnly => us
    case MetricOnly => metric
    case UsThenMetric => us + " (" + metric + ")"
  }

  /** The layout shows the US text unless the setting is metric-only, and the metric text unless it is US-only, primary first. */
  lemma LayoutShows(units: int, us: string, metric: string)
    ensures units != 4 ==> Contains(Layout(units, us, metric), us)
    ensures units != 3 ==> Contains(Layout(units, us, metric), metric)
    ensures units != 2 && units != 4 ==> StartsWith(Layout(units, us, metric), us)
    ensures units == 2 || units == 4 ==> StartsWith(Layout(units, us, metric), metric)
  {
    var r := Layout(units, us, metric);
    if units == 2 {
      assert OccursAt(r, metric, 0);
      assert OccursAt(r, us, |metric| + 2);
    } else if units == 3 {
      assert OccursAt(r, us, 0);
    } else if units == 4 {
      assert OccursAt(r, metric, 0);
    } else {
      assert OccursAt(r, us, 0);
      assert OccursAt(r, metric, |us| + 2);
    }
  }

  /** The pound value converted to kilograms, two decimals. */
  function Kilograms(pounds: real, num: Numerics): string
  {
    num.numberFormat(pounds * 0.45359237, 2)
  }

  /** Inches converted to centimetres: rounded to one decimal, then printed with two. */
  function Centimetres(inches: real, num: Numerics): string
  {
    num.numberFormat(num.round(inches * 2.54, 1), 2)
  }

  /** Fahrenheit converted to Celsius with the factor 0.5556, two decimals. */
  function Celsius(fahrenheit: real, num: Numerics): string
  {
    num.numberFormat((fahrenheit - 32.0) * 0.5556, 2)
  }

  /** getPatientAge's answer: whole years, or a text such as "7 month" for infants. */
  datatype PatientAge = Years(years: int) | Described(text: string)

  /** strcmp-style ordering of two strings, as PHP 8 compares a non-numeric string with a number. */
  predicate LexLessOrEqual(a: string, b: string)
    decreases |a|
  {
    if a == [] then true
    else if b == [] then false
    else if a[0] != b[0] then a[0] < b[0]
    else LexLessOrEqual(a[1..], b[1..])
  }

  /** $patient_age <= 20 || preg_match('/month/', $patient_age) */
  predicate IsPediatric(age: PatientAge)
  {
    match age
    case Years(y) => y <= 20
    case Described(t) => LexLessOrEqual(t, "20") || Contains(t, "month")
  }

  /**
   * Whole years count as pediatric up to and including 20; any age given in
   * months is pediatric; and an empty age (no date of birth) also is, since
   * PHP 8 compares "" <= 20 as strings.
   */
  lemma PediatricCases(y: int, months: string)
    ensures IsPediatric(Years(y)) <==> y <= 20
    ensures IsPediatric(Described(months + " month"))
    ensures IsPediatric(Described(""))
    ensures !IsPediatric(Described("adult"))
  {
    var t := months + " month";
    assert OccursAt(t, "month", |months| + 1);
    assert !OccursAt("adult", "month", 0) by {
      assert "adult"[0..5][0] != "month"[0];
    }
    assert !LexLessOrEqual("adult", "20");
  }
}
