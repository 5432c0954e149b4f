/**
 * The /calculate and /convert endpoints of app.py (lines 39-114): the ordered input
 * checks, the error messages and the success payloads. Number formatting is abstracted:
 * the payloads carry exact reals where the server sends formatted strings.
 */
module Endpoints {
  import opened Wrappers
  import opened ActivityUnits
  import opened ElapsedTime

  /** A JSON reply: an error reply holds only its message and no `success` key. */
  datatype Reply<T> = Success(body: T) | Failure(error: string)

  const CalculateFormatError := "输入格式错误，请检查数值和时间格式"
  const NegativeDose := "初始剂量不能为负数"
  const InvalidIsotope := "无效的同位素选择"
  const InvalidUnit := "无效的单位选择"
  const ConvertFormatError := "输入格式错误，请输入有效数值"
  const NegativeValue := "数值不能为负数"

  /**
   * The /calculate form as the server reads it. `a0Value` is float(form.get('a0_value', 0)),
   * None when float() raises ValueError; `isotope` and `a0Unit` are None when absent;
   * `elapsedMinutes` is (tt - t0) in minutes, None when a time does not parse.
   */
  datatype DecayForm = DecayForm(isotope: Option<string>, a0Value: Option<real>,
                                 a0Unit: Option<string>, elapsedMinutes: Option<real>)

  /** The /calculate success payload: delta_time, activity, unit and percentage. */
  datatype DecayReport = DecayReport(span: Span, deltaMin: real, activity: real,
                                     unit: string, percentage: real)

  function IsotopeKnown(isotope: Option<string>): bool
  {
    isotope.Some? && isotope.value in HalfLifeMin
  }

  function UnitKnown(unit: Option<string>): bool
  {
    unit.Some? && unit.value in ConversionFactors
  }

  /**
   * /calculate. The dose is parsed first; then, in order, a negative dose, an unknown
   * isotope and an unknown unit are rejected; only then are the times parsed.
   */
  function Calculate(form: DecayForm, pow2: real -> real): (r: Reply<DecayReport>)
    ensures r.Success? <==> form.a0Value.Some? && form.a0Value.value >= 0.0
                            && IsotopeKnown(form.isotope) && UnitKnown(form.a0Unit)
                            && form.elapsedMinutes.Some?
    ensures r.Success? ==>
              var k := DecayFraction(form.elapsedMinutes.value, form.isotope.value, pow2);
              && r.body.span == SpanAsWritten(form.elapsedMinutes.value)
              && r.body.unit == form.a0Unit.value
              && r.body.deltaMin == form.elapsedMinutes.value
              && r.body.activity == form.a0Value.value * k
              && r.body.percentage == (if form.a0Value.value > 0.0 then 100.0 * k else 0.0)
  {
    if form.a0Value.None? then Failure(CalculateFormatError)
    else
      var a0 := form.a0Value.value;
      if a0 < 0.0 then Failure(NegativeDose)
      else if !IsotopeKnown(form.isotope) then Failure(InvalidIsotope)
      else if !UnitKnown(form.a0Unit) then Failure(InvalidUnit)
      else if form.elapsedMinutes.None? then Failure(CalculateFormatError)
      else
        var unit, deltaMin, isotope := form.a0Unit.value, form.elapsedMinutes.value, form.isotope.value;
        Success(Report(a0, unit, deltaMin, isotope, pow2))
  }

  /** The success payload of /calculate for checked inputs. */
  function Report(a0: real, unit: string, deltaMin: real, isotope: string, pow2: real -> real): (rep: DecayReport)
    requires unit in ConversionFactors && isotope in HalfLifeMin
    ensures var k := DecayFraction(deltaMin, isotope, pow2);
            && rep.span == SpanAsWritten(deltaMin)
            && rep.unit == unit && rep.deltaMin == deltaMin
            && rep.activity == a0 * k
            && rep.percentage == (if a0 > 0.0 then 100.0 * k else 0.0)
  {
    var aT := DecayActivitySameUnit(a0, unit, deltaMin, isotope, pow2);
    DecayIsUnitIndependent(a0, unit, deltaMin, isotope, pow2);
    var pct := if a0 > 0.0 then aT / a0 * 100.0 else 0.0;
    PercentOfDose(a0, DecayFraction(deltaMin, isotope, pow2), aT);
    DecayReport(SpanAsWritten(deltaMin), deltaMin, aT, unit, pct)
  }

  /** An activity of a0 * k is 100 * k percent of a positive initial dose a0. */
  lemma PercentOfDose(a0: real, k: real, aT: real)
    requires aT == a0 * k
    ensures a0 > 0.0 ==> aT / a0 * 100.0 == 100.0 * k
  {
    if a0 > 0.0 {
      assert aT / a0 == k;
    }
  }

  /**
   * The first failing check decides the reply: a negative dose is reported whatever the
   * isotope, unit and times are; an unknown isotope whatever the unit and times are;
   * an unknown unit whatever the times are.
   */
  lemma CalculateCheckOrder(form: DecayForm, pow2: real -> real)
    ensures form.a0Value.None? ==> Calculate(form, pow2) == Failure(CalculateFormatError)
    ensures form.a0Value.Some? && form.a0Value.value < 0.0 ==>
              Calculate(form, pow2) == Failure(NegativeDose)
    ensures form.a0Value.Some? && form.a0Value.value >= 0.0 && !IsotopeKnown(form.isotope) ==>
              Calculate(form, pow2) == Failure(InvalidIsotope)
    ensures form.a0Value.Some? && form.a0Value.value >= 0.0 && IsotopeKnown(form.isotope)
            && !UnitKnown(form.a0Unit) ==>
              Calculate(form, pow2) == Failure(InvalidUnit)
    ensures form.a0Value.Some? && form.a0Value.value >= 0.0 && IsotopeKnown(form.isotope)
            && UnitKnown(form.a0Unit) && form.elapsedMinutes.None? ==>
              Calculate(form, pow2) == Failure(CalculateFormatError)
  {
  }

  /** A zero dose is accepted by the server, and its percentage is reported as 0. */
  lemma ZeroDosePercentage(form: DecayForm, pow2: real -> real)
    requires form.a0Value == Some(0.0)
    requires IsotopeKnown(form.isotope) && UnitKnown(form.a0Unit) && form.elapsedMinutes.Some?
    ensures Calculate(form, pow2).Success?
    ensures Calculate(form, pow2).body.percentage == 0.0
    ensures Calculate(form, pow2).body.activity == 0.0
  {
  }

  /** Every error message of the two endpoints is non-empty. */
  lemma ErrorMessagesNonEmpty(form: DecayForm, pow2: real -> real, cform: ConvertForm)
    ensures Calculate(form, pow2).Failure? ==> Calculate(form, pow2).error != ""
    ensures ConvertEndpoint(cform).Failure? ==> ConvertEndpoint(cform).error != ""
  {
  }

  /** The /convert form: value is float(form.get('value', 0)), None when it does not parse. */
  datatype ConvertForm = ConvertForm(value: Option<real>, fromUnit: Option<string>,
                                     toUnit: Option<string>)

  /** The /convert success payload, "value from = result to" before formatting. */
  datatype Conversion = Conversion(value: real, fromUnit: string, result: real, toUnit: string)

  /** /convert: a negative value is rejected before the units are looked at. */
  function ConvertEndpoint(form: ConvertForm): (r: Reply<Conversion>)
    ensures r.Success? <==> form.value.Some? && form.value.value >= 0.0
                            && UnitKnown(form.fromUnit) && UnitKnown(form.toUnit)
    ensures r.Success? ==>
              && r.body.value == form.value.value
              && r.body.fromUnit == form.fromUnit.value && r.body.toUnit == form.toUnit.value
              && r.body.result * Factor(r.body.toUnit) == r.body.value * Factor(r.body.fromUnit)
  {
    if form.value.None? then Failure(ConvertFormatError)
    else if form.value.value < 0.0 then Failure(NegativeValue)
    else if !UnitKnown(form.fromUnit) || !UnitKnown(form.toUnit) then Failure(InvalidUnit)
    else
      var v, a, b := form.value.value, form.fromUnit.value, form.toUnit.value;
      ConvertKeepsBecquerels(v, a, b);
      Success(Conversion(v, a, Convert(v, a, b), b))
  }

  /**
   * /convert reports an unparsable value first, then a negative value whatever the units;
   * otherwise either bad unit gives the unit error.
   */
  lemma ConvertCheckOrder(form: ConvertForm)
    ensures form.value.None? ==> ConvertEndpoint(form) == Failure(ConvertFormatError)
    ensures form.value.Some? && form.value.value < 0.0 ==> ConvertEndpoint(form) == Failure(NegativeValue)
    ensures form.value.Some? && form.value.value >= 0.0
            && (!UnitKnown(form.fromUnit) || !UnitKnown(form.toUnit)) ==>
              ConvertEndpoint(form) == Failure(InvalidUnit)
  {
  }

  /** Converting a successful result back with the units swapped returns the original value. */
  lemma ConvertEndpointRoundTrip(form: ConvertForm)
    requires ConvertEndpoint(form).Success?
    ensures var c := ConvertEndpoint(form).body;
            ConvertEndpoint(ConvertForm(Some(c.result), Some(c.toUnit), Some(c.fromUnit)))
              == Success(Conversion(c.result, c.toUnit, c.value, c.fromUnit))
  {
    var c := ConvertEndpoint(form).body;
    ConvertRoundTrip(c.value, c.fromUnit, c.toUnit);
    ConvertIsScaling(c.value, c.fromUnit, c.toUnit);
    assert c.result >= 0.0;
  }
}
