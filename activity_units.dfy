/**
 * The server's constant tables and the radioactivity unit conversion built on them
 * (app.py, lines 8-30). Floats are idealised as exact reals.
 */
module ActivityUnits {

  /** HALF_LIFE_MIN: half-life in minutes of each supported isotope. */
  const HalfLifeMin: map<string, real> := map["F-18" := 109.7, "C-11" := 20.3]

  /** CONVERSION_FACTORS: how many becquerels one of each unit is. */
  const ConversionFactors: map<string, real> :=
    map["Bq" := 1.0, "MBq" := 1000000.0, "GBq" := 1000000000.0,
        "Ci" := 37000000000.0, "mCi" := 37000000.0]

  /** The table lists exactly the five units, each worth at least one becquerel. */
  function Factor(unit: string): (f: real)
    requires unit in ConversionFactors
    ensures unit in {"Bq", "MBq", "GBq", "Ci", "mCi"}
    ensures f >= 1.0
    ensures f == 1.0 <==> unit == "Bq"
  {
    ConversionFactors[unit]
  }

  /** Every isotope in the table has a positive half-life. */
  function HalfLife(isotope: string): (t: real)
    requires isotope in HalfLifeMin
    ensures isotope == "F-18" || isotope == "C-11"
    ensures t > 0.0
  {
    HalfLifeMin[isotope]
  }

  /** to_bq: a value in `unit` expressed in becquerels. */
  function ToBq(value: real, unit: string): real
    requires unit in ConversionFactors
  {
    value * Factor(unit)
  }

  /** from_bq: a value in becquerels expressed in `unit`. */
  function FromBq(value: real, unit: string): real
    requires unit in ConversionFactors
  {
    value / Factor(unit)
  }

  /** convert_radioactivity: through becquerels, from one unit to another. */
  function Convert(value: real, fromUnit: string, toUnit: string): real
    requires fromUnit in ConversionFactors && toUnit in ConversionFactors
  {
    FromBq(ToBq(value, fromUnit), toUnit)
  }

  /** from_bq undoes to_bq and to_bq undoes from_bq, for every unit of the table. */
  lemma BqRoundTrip(value: real, unit: string)
    requires unit in ConversionFactors
    ensures FromBq(ToBq(value, unit), unit) == value
    ensures ToBq(FromBq(value, unit), unit) == value
  {
    var f := Factor(unit);
    assert value * f / f == value;
    assert value / f * f == value;
  }

  /** The becquerel is the base unit: both directions are the identity. */
  lemma BqIsBase(value: real)
    ensures ToBq(value, "Bq") == value && FromBq(value, "Bq") == value
  {
  }

  /** Converting scales by the ratio of the two factors. */
  lemma ConvertIsScaling(value: real, fromUnit: string, toUnit: string)
    requires fromUnit in ConversionFactors && toUnit in ConversionFactors
    ensures Convert(value, fromUnit, toUnit) == value * (Factor(fromUnit) / Factor(toUnit))
  {
    var a, b := Factor(fromUnit), Factor(toUnit);
    assert value * a / b == value * (a / b);
  }

  /** The converted value, counted in becquerels, is the original amount of becquerels. */
  lemma ConvertKeepsBecquerels(value: real, fromUnit: string, toUnit: string)
    requires fromUnit in ConversionFactors && toUnit in ConversionFactors
    ensures Convert(value, fromUnit, toUnit) * Factor(toUnit) == value * Factor(fromUnit)
  {
    BqRoundTrip(ToBq(value, fromUnit), toUnit);
  }

  /** Converting a value to its own unit leaves it unchanged. */
  lemma ConvertSameUnit(value: real, unit: string)
    requires unit in ConversionFactors
    ensures Convert(value, unit, unit) == value
  {
    BqRoundTrip(value, unit);
  }

  /** Converting a to b and then b to a gives back the original value. */
  lemma ConvertRoundTrip(value: real, a: string, b: string)
    requires a in ConversionFactors && b in ConversionFactors
    ensures Convert(Convert(value, a, b), b, a) == value
  {
    var x := ToBq(value, a);
    BqRoundTrip(x, b);
    BqRoundTrip(value, a);
  }

  /** Converting in two steps is converting in one. */
  lemma ConvertCompose(value: real, a: string, b: string, c: string)
    requires a in ConversionFactors && b in ConversionFactors && c in ConversionFactors
    ensures Convert(Convert(value, a, b), b, c) == Convert(value, a, c)
  {
    BqRoundTrip(ToBq(value, a), b);
  }

  /** Two sample rows of the table: a curie is 1000 millicuries, a GBq is 1000 MBq. */
  lemma KnownRatios(value: real)
    ensures Convert(value, "Ci", "mCi") == 1000.0 * value
    ensures Convert(value, "GBq", "MBq") == 1000.0 * value
    ensures Convert(value, "mCi", "MBq") == 37.0 * value
  {
    ConvertIsScaling(value, "Ci", "mCi");
    ConvertIsScaling(value, "GBq", "MBq");
    ConvertIsScaling(value, "mCi", "MBq");
  }

  /** The fraction of the activity left after deltaMin minutes, 2 ** (-(deltaMin / t_half)). */
  function DecayFraction(deltaMin: real, isotope: string, pow2: real -> real): real
    requires isotope in HalfLifeMin
  {
    pow2(-(deltaMin / HalfLife(isotope)))
  }

  /**
   * decay_activity_same_unit: the activity after `deltaMin` minutes, in the unit of the
   * initial dose. `pow2` stands for Python's `2 ** x`, which the model does not define.
   */
  function DecayActivitySameUnit(a0: real, unit: string, deltaMin: real, isotope: string,
                                 pow2: real -> real): real
    requires unit in ConversionFactors && isotope in HalfLifeMin
  {
    var aTBq := ToBq(a0, unit) * pow2(-(deltaMin / HalfLife(isotope)));
    FromBq(aTBq, unit)
  }

  /**
   * The detour through becquerels cancels: the decayed activity is the initial dose
   * times the decay fraction, whatever the unit.
   */
  lemma DecayIsUnitIndependent(a0: real, unit: string, deltaMin: real, isotope: string,
                               pow2: real -> real)
    requires unit in ConversionFactors && isotope in HalfLifeMin
    ensures DecayActivitySameUnit(a0, unit, deltaMin, isotope, pow2)
            == a0 * pow2(-(deltaMin / HalfLife(isotope)))
  {
    var f := Factor(unit);
    var k := pow2(-(deltaMin / HalfLife(isotope)));
    assert a0 * f * k / f == a0 * k;
  }
}
