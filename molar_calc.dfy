/**
 * The molar helpers and the /calculate_molar dispatch of app.py (lines 121-205). Masses
 * are normalised to g, volumes to L and concentrations to mol/L; the milli-units "mg",
 * "mL" and "mmol/L" are divided by 1000 and every other unit string is taken as the base
 * unit. Rounding to 4 (or 2) places and the formula text are abstracted: each result
 * carries the normalised operands and the exact results.
 */
module MolarCalc {
  import opened Wrappers

  const MilliMass := "mg"
  const MilliVolume := "mL"
  const MilliConcentration := "mmol/L"

  const DivisionByZero := "计算失败: float division by zero"
  const MolarFormatError := "输入格式错误，请检查数值格式"
  const InvalidCalcType := "无效的计算类型"

  /** `if unit == milliUnit: x /= 1000`, the shared normalisation rule. */
  function Normalise(x: real, unit: string, milliUnit: string): real
  {
    if unit == milliUnit then x / 1000.0 else x
  }

  /** The milli-unit is a thousandth of the base unit; any other string is the base unit. */
  lemma NormaliseScales(x: real, unit: string, milliUnit: string)
    ensures unit == milliUnit ==> 1000.0 * Normalise(x, unit, milliUnit) == x
    ensures unit != milliUnit ==> Normalise(x, unit, milliUnit) == x
  {
  }

  /** A helper's outcome: its normalised operands and its results, before rounding. */
  datatype MolarResult =
    | Mass(molarMass: real, volumeL: real, concMolL: real, grams: real, milligrams: real)
    | Volume(massG: real, molarMass: real, concMolL: real, litres: real, millilitres: real,
             microlitres: real)
    | Concentration(massG: real, molarMass: real, volumeL: real, molPerL: real, mmolPerL: real)
    | MolarMass(massG: real, volumeL: real, concMolL: real, gPerMol: real)

  /** A reply of /calculate_molar, or a helper's ZeroDivisionError. */
  datatype Outcome = Done(result: MolarResult) | Error(message: string)

  /** calculate_mass: m = M × V × c. Never divides. */
  function CalculateMass(M: real, V: real, c: real, volumeUnit: string, concUnit: string): (r: MolarResult)
    ensures r.Mass? && r.molarMass == M
    ensures r.volumeL == Normalise(V, volumeUnit, MilliVolume)
    ensures r.concMolL == Normalise(c, concUnit, MilliConcentration)
    ensures r.grams == M * r.volumeL * r.concMolL
    ensures r.milligrams == 1000.0 * r.grams
  {
    var V' := Normalise(V, volumeUnit, MilliVolume);
    var c' := Normalise(c, concUnit, MilliConcentration);
    var g := M * V' * c';
    Mass(M, V', c', g, g * 1000.0)
  }

  /** calculate_volume: V = m / (M × c); a zero M × c raises ZeroDivisionError. */
  function CalculateVolume(m: real, M: real, c: real, massUnit: string, concUnit: string): (r: Outcome)
    ensures r.Error? <==> M * Normalise(c, concUnit, MilliConcentration) == 0.0
    ensures r.Error? ==> r.message == DivisionByZero
    ensures r.Done? ==> && r.result.Volume?
                        && r.result.massG == Normalise(m, massUnit, MilliMass)
                        && r.result.molarMass == M
                        && r.result.concMolL == Normalise(c, concUnit, MilliConcentration)
                        && r.result.litres * M * r.result.concMolL == r.result.massG
                        && r.result.millilitres == 1000.0 * r.result.litres
                        && r.result.microlitres == 1000.0 * r.result.millilitres
  {
    var m' := Normalise(m, massUnit, MilliMass);
    var c' := Normalise(c, concUnit, MilliConcentration);
    if M * c' == 0.0 then Error(DivisionByZero)
    else
      var litres := m' / (M * c');
      var mL := litres * 1000.0;
      Done(Volume(m', M, c', litres, mL, mL * 1000.0))
  }

  /** calculate_concentration: c = (m / M) / V; a zero M or V raises ZeroDivisionError. */
  function CalculateConcentration(m: real, M: real, V: real, massUnit: string, volumeUnit: string): (r: Outcome)
    ensures r.Error? <==> M == 0.0 || Normalise(V, volumeUnit, MilliVolume) == 0.0
    ensures r.Error? ==> r.message == DivisionByZero
    ensures r.Done? ==> && r.result.Concentration?
                        && r.result.massG == Normalise(m, massUnit, MilliMass)
                        && r.result.molarMass == M
                        && r.result.volumeL == Normalise(V, volumeUnit, MilliVolume)
                        && r.result.molPerL * M * r.result.volumeL == r.result.massG
                        && r.result.mmolPerL == 1000.0 * r.result.molPerL
  {
    var m' := Normalise(m, massUnit, MilliMass);
    var V' := Normalise(V, volumeUnit, MilliVolume);
    if M == 0.0 || V' == 0.0 then Error(DivisionByZero)
    else
      var molL := (m' / M) / V';
      Done(Concentration(m', M, V', molL, molL * 1000.0))
  }

  /** calculate_molar_mass: M = m / (V × c); a zero V × c raises ZeroDivisionError. */
  function CalculateMolarMass(m: real, V: real, c: real, massUnit: string, volumeUnit: string,
                              concUnit: string): (r: Outcome)
    ensures r.Error? <==> Normalise(V, volumeUnit, MilliVolume) * Normalise(c, concUnit, MilliConcentration) == 0.0
    ensures r.Error? ==> r.message == DivisionByZero
    ensures r.Done? ==> && r.result.MolarMass?
                        && r.result.massG == Normalise(m, massUnit, MilliMass)
                        && r.result.volumeL == Normalise(V, volumeUnit, MilliVolume)
                        && r.result.concMolL == Normalise(c, concUnit, MilliConcentration)
                        && r.result.gPerMol * r.result.volumeL * r.result.concMolL == r.result.massG
  {
    var m' := Normalise(m, massUnit, MilliMass);
    var V' := Normalise(V, volumeUnit, MilliVolume);
    var c' := Normalise(c, concUnit, MilliConcentration);
    if V' * c' == 0.0 then Error(DivisionByZero)
    else Done(MolarMass(m', V', c', m' / (V' * c')))
  }

  /** Giving a volume in mL (1000 times the number) yields the same mass as in L. */
  lemma MassVolumeUnitInvariant(M: real, V: real, c: real, concUnit: string)
    ensures CalculateMass(M, 1000.0 * V, c, MilliVolume, concUnit) == CalculateMass(M, V, c, "L", concUnit)
  {
  }

  /** Giving a concentration in mmol/L (1000 times the number) yields the same mass as in mol/L. */
  lemma MassConcentrationUnitInvariant(M: real, V: real, c: real, volumeUnit: string)
    ensures CalculateMass(M, V, 1000.0 * c, volumeUnit, MilliConcentration)
            == CalculateMass(M, V, c, volumeUnit, "mol/L")
  {
  }

  /** The mass helper's milligram figure is 1000 times its gram figure, and grams are M × V × c in base units. */
  lemma MassInBaseUnits(M: real, V: real, c: real)
    ensures CalculateMass(M, V, c, "L", "mol/L").grams == M * V * c
    ensures CalculateMass(M, V, c, MilliVolume, MilliConcentration).grams == M * V * c / 1000000.0
  {
    var V', c' := V / 1000.0, c / 1000.0;
    assert M * V' * c' == M * V * c / 1000000.0;
  }

  /** The volume helper undoes the mass helper: the mass needed for V litres takes up V litres. */
  lemma VolumeInvertsMass(M: real, V: real, c: real)
    requires M != 0.0 && c != 0.0
    ensures CalculateVolume(CalculateMass(M, V, c, "L", "mol/L").grams, M, c, "g", "mol/L")
            == Done(Volume(M * V * c, M, c, V, 1000.0 * V, 1000000.0 * V))
  {
    var g := CalculateMass(M, V, c, "L", "mol/L").grams;
    assert g == M * V * c;
    var d := M * c;
    assert d != 0.0;
    assert g == d * V;
    assert d * V / d == V;
  }

  /** The concentration helper undoes the mass helper. */
  lemma ConcentrationInvertsMass(M: real, V: real, c: real)
    requires M != 0.0 && V != 0.0
    ensures CalculateConcentration(CalculateMass(M, V, c, "L", "mol/L").grams, M, V, "g", "L")
            == Done(Concentration(M * V * c, M, V, c, 1000.0 * c))
  {
    var g := CalculateMass(M, V, c, "L", "mol/L").grams;
    assert g == M * V * c;
    assert g / M == V * c;
    assert (g / M) / V == c;
  }

  /** The molar-mass helper recovers the molar mass that the mass helper was given. */
  lemma MolarMassInvertsMass(M: real, V: real, c: real)
    requires V != 0.0 && c != 0.0
    ensures CalculateMolarMass(CalculateMass(M, V, c, "L", "mol/L").grams, V, c, "g", "L", "mol/L")
            == Done(MolarMass(M * V * c, V, c, M))
  {
    var g := CalculateMass(M, V, c, "L", "mol/L").grams;
    assert g == M * V * c;
    var d := V * c;
    assert d != 0.0;
    assert g == M * d;
    assert g / d * d == g;
  }

  /**
   * The /calculate_molar form. Each number is float(form.get(key, 0)) (int() for
   * calcType), None when the conversion raises ValueError; a missing unit is "".
   */
  datatype MolarForm = MolarForm(calcType: Option<int>, molarMass: Option<real>,
                                 input1: Option<real>, input1Unit: string,
                                 input2: Option<real>, input2Unit: string,
                                 input3: Option<real>, input3Unit: string)

  predicate FirstFieldsParse(form: MolarForm)
  {
    form.calcType.Some? && form.molarMass.Some? && form.input1.Some? && form.input2.Some?
  }

  /**
   * /calculate_molar: parse calc_type, molar_mass, input1 and input2, then dispatch on
   * calc_type 0 (mass), 1 (volume), 2 (concentration) or 3 (molar mass, which alone
   * reads input3); any other type is rejected.
   */
  function CalculateMolar(form: MolarForm): (r: Outcome)
  {
    if !FirstFieldsParse(form) then Error(MolarFormatError)
    else
      var M, x1, x2 := form.molarMass.value, form.input1.value, form.input2.value;
      match form.calcType.value
      case 0 => Done(CalculateMass(M, x1, x2, form.input1Unit, form.input2Unit))
      case 1 => CalculateVolume(x1, M, x2, form.input1Unit, form.input2Unit)
      case 2 => CalculateConcentration(x1, M, x2, form.input1Unit, form.input2Unit)
      case 3 =>
        if form.input3.None? then Error(MolarFormatError)
        else CalculateMolarMass(x1, x2, form.input3.value, form.input1Unit, form.input2Unit,
                                form.input3Unit)
      case _ => Error(InvalidCalcType)
  }

  /** The type is rejected exactly when it is outside 0-3. */
  lemma MolarDispatch(form: MolarForm)
    requires FirstFieldsParse(form)
    ensures CalculateMolar(form) == Error(InvalidCalcType) <==> form.calcType.value !in {0, 1, 2, 3}
  {
  }

  /**
   * Type 0 computes a mass from molar_mass, input1 as the volume and input2 as the
   * concentration: the reply is the mass helper's, grams = M × V × c and mg = 1000 × g.
   */
  lemma MolarMassRouting(form: MolarForm)
    requires FirstFieldsParse(form) && form.calcType.value == 0
    ensures var r := CalculateMolar(form);
            var M := form.molarMass.value;
            var V := Normalise(form.input1.value, form.input1Unit, MilliVolume);
            var c := Normalise(form.input2.value, form.input2Unit, MilliConcentration);
            && r == Done(CalculateMass(M, form.input1.value, form.input2.value, form.input1Unit, form.input2Unit))
            && r.result.Mass?
            && r.result.molarMass == M && r.result.volumeL == V && r.result.concMolL == c
            && r.result.grams == M * V * c
            && r.result.milligrams == 1000.0 * r.result.grams
  {
  }

  /**
   * Type 1 computes a volume from input1 as the mass, molar_mass and input2 as the
   * concentration; it fails exactly when molar_mass × concentration is zero, and
   * otherwise litres × M × c = m, with mL and μL each 1000 times the unit before.
   */
  lemma VolumeRouting(form: MolarForm)
    requires FirstFieldsParse(form) && form.calcType.value == 1
    ensures var r := CalculateMolar(form);
            var M := form.molarMass.value;
            var m := Normalise(form.input1.value, form.input1Unit, MilliMass);
            var c := Normalise(form.input2.value, form.input2Unit, MilliConcentration);
            && r == CalculateVolume(form.input1.value, M, form.input2.value, form.input1Unit, form.input2Unit)
            && (r.Error? <==> M * c == 0.0)
            && (r.Error? ==> r.message == DivisionByZero)
            && (r.Done? ==> && r.result.Volume?
                            && r.result.massG == m
                            && r.result.molarMass == M
                            && r.result.concMolL == c
                            && r.result.litres * M * c == m
                            && r.result.millilitres == 1000.0 * r.result.litres
                            && r.result.microlitres == 1000.0 * r.result.millilitres)
  {
  }

  /**
   * Type 2 computes a concentration from input1 as the mass, molar_mass and input2 as the
   * volume; it fails exactly when molar_mass or the volume is zero, and otherwise
   * mol/L × M × V = m and mmol/L = 1000 × mol/L.
   */
  lemma ConcentrationRouting(form: MolarForm)
    requires FirstFieldsParse(form) && form.calcType.value == 2
    ensures var r := CalculateMolar(form);
            var M := form.molarMass.value;
            var m := Normalise(form.input1.value, form.input1Unit, MilliMass);
            var V := Normalise(form.input2.value, form.input2Unit, MilliVolume);
            && r == CalculateConcentration(form.input1.value, M, form.input2.value, form.input1Unit, form.input2Unit)
            && (r.Error? <==> M == 0.0 || V == 0.0)
            && (r.Error? ==> r.message == DivisionByZero)
            && (r.Done? ==> && r.result.Concentration?
                            && r.result.massG == m
                            && r.result.molarMass == M
                            && r.result.volumeL == V
                            && r.result.molPerL * M * V == m
                            && r.result.mmolPerL == 1000.0 * r.result.molPerL)
  {
  }

  /**
   * Type 3 reads input3 as the concentration, input1 as the mass and input2 as the volume;
   * an unparsable input3 is a format error; otherwise it fails exactly when
   * volume × concentration is zero, and g/mol × V × c = m. molar_mass is not used.
   */
  lemma MolarMassInverseRouting(form: MolarForm)
    requires FirstFieldsParse(form) && form.calcType.value == 3
    ensures form.input3.None? ==> CalculateMolar(form) == Error(MolarFormatError)
    ensures form.input3.Some? ==>
              var r := CalculateMolar(form);
              var m := Normalise(form.input1.value, form.input1Unit, MilliMass);
              var V := Normalise(form.input2.value, form.input2Unit, MilliVolume);
              var c := Normalise(form.input3.value, form.input3Unit, MilliConcentration);
              && r == CalculateMolarMass(form.input1.value, form.input2.value, form.input3.value,
                                         form.input1Unit, form.input2Unit, form.input3Unit)
              && (r.Error? <==> V * c == 0.0)
              && (r.Error? ==> r.message == DivisionByZero)
              && (r.Done? ==> && r.result.MolarMass?
                              && r.result.massG == m
                              && r.result.volumeL == V
                              && r.result.concMolL == c
                              && r.result.gPerMol * V * c == m)
    ensures CalculateMolar(form) == CalculateMolar(form.(molarMass := Some(0.0)))
  {
  }

  /** input3 and input3_unit are read only for calc_type 3: other types ignore them. */
  lemma Input3OnlyForMolarMass(form: MolarForm, input3: Option<real>, input3Unit: string)
    requires form.calcType != Some(3)
    ensures CalculateMolar(form) == CalculateMolar(form.(input3 := input3, input3Unit := input3Unit))
  {
  }

  /** A malformed first field is reported before the type is looked at. */
  lemma ParseBeforeDispatch(form: MolarForm)
    requires !FirstFieldsParse(form)
    ensures CalculateMolar(form) == Error(MolarFormatError)
  {
  }
}
