/**
 * The browser-side unit conversions. Each is an if/else-if chain on the
 * unit string with no final else, so a unit it does not list gives
 * `undefined`, modelled as None.
 */
module Units {
  import opened Common

  const TemperatureUnits: set<string> := {"K", "C", "F", "R"}
  const PressureUnits: set<string> := {"bar", "atm", "Pa", "psi", "torr"}
  const EnergyUnits: set<string> := {"kJ/mol", "kcal/mol", "J/mol", "cal/mol", "cm^-1"}
  const HeatCapacityUnits: set<string> := {"J/mol*K", "cal/mol*K"}

  /** `convertTemperatureFrom`: a temperature in `units` to K. */
  function TemperatureFrom(value: real, units: string): (r: Option<real>)
    ensures r.Some? <==> units in TemperatureUnits
  {
    if units == "K" then Some(value)
    else if units == "C" then Some(value + 273.15)
    else if units == "F" then Some((value + 459.67) / 1.8)
    else if units == "R" then Some(value / 1.8)
    else None
  }

  /** `convertTemperatureTo`: a temperature in K to `units`. */
  function TemperatureTo(value: real, units: string): (r: Option<real>)
    ensures r.Some? <==> units in TemperatureUnits
  {
    if units == "K" then Some(value)
    else if units == "C" then Some(value - 273.15)
    else if units == "F" then Some(value * 1.8 - 459.67)
    else if units == "R" then Some(value * 1.8)
    else None
  }

  /** `convertPressureTo`: a pressure in Pa to `units`. */
  function PressureTo(value: real, units: string): (r: Option<real>)
    ensures r.Some? <==> units in PressureUnits
    ensures units == "Pa" ==> r == Some(value)
  {
    if units == "bar" then Some(value / 1.0e5)
    else if units == "atm" then Some(value / 101325.0)
    else if units == "Pa" then Some(value)
    else if units == "psi" then Some(value / 6894.757)
    else if units == "torr" then Some(value / 101325.0 / 760.0)
    else None
  }

  /** `convertEnergyTo`: an energy in J/mol to `units`. */
  function EnergyTo(value: real, units: string): (r: Option<real>)
    ensures r.Some? <==> units in EnergyUnits
    ensures units == "J/mol" ==> r == Some(value)
  {
    if units == "kJ/mol" then Some(value / 1000.0)
    else if units == "kcal/mol" then Some(value / 4184.0)
    else if units == "J/mol" then Some(value)
    else if units == "cal/mol" then Some(value / 4.184)
    else if units == "cm^-1" then Some(value / 2.9979e10 * 6.626e-34 * 6.022e23)
    else None
  }

  /** `convertHeatCapacityTo`: a heat capacity in J/(mol K) to `units`. */
  function HeatCapacityTo(value: real, units: string): (r: Option<real>)
    ensures r.Some? <==> units in HeatCapacityUnits
    ensures units == "J/mol*K" ==> r == Some(value)
  {
    if units == "J/mol*K" then Some(value)
    else if units == "cal/mol*K" then Some(value / 4.184)
    else None
  }

  /** Converting a temperature to K and back, or from K and back, is exact. */
  lemma TemperatureRoundTrip(value: real, units: string)
    requires units in TemperatureUnits
    ensures TemperatureTo(TemperatureFrom(value, units).value, units) == Some(value)
    ensures TemperatureFrom(TemperatureTo(value, units).value, units) == Some(value)
  {
    if units == "F" {
      assert (value + 459.67) / 1.8 * 1.8 == value + 459.67;
      assert (value * 1.8 - 459.67 + 459.67) / 1.8 == value;
    } else if units == "R" {
      assert value / 1.8 * 1.8 == value;
    }
  }

  /** torr is atm divided by 760; kcal/mol is cal/mol divided by 1000. */
  lemma DerivedUnits(value: real)
    ensures PressureTo(value, "torr").value == PressureTo(value, "atm").value / 760.0
    ensures EnergyTo(value, "kcal/mol").value == EnergyTo(value, "cal/mol").value / 1000.0
  {
  }

  /** Every pressure conversion is linear. */
  lemma PressureLinear(a: real, value: real, units: string)
    requires units in PressureUnits
    ensures PressureTo(a * value, units).value == a * PressureTo(value, units).value
  {
    if units == "torr" {
      DivideScaled(a, value, 101325.0);
      DivideScaled(a, value / 101325.0, 760.0);
    } else if units != "Pa" {
      DivideScaled(a, value, if units == "bar" then 1.0e5 else if units == "atm" then 101325.0 else 6894.757);
    }
  }

  /** Every energy conversion is linear. */
  lemma EnergyLinear(a: real, value: real, units: string)
    requires units in EnergyUnits
    ensures EnergyTo(a * value, units).value == a * EnergyTo(value, units).value
  {
    if units == "cm^-1" {
      DivideScaled(a, value, 2.9979e10);
      var q := value / 2.9979e10;
      MultiplyScaled(a, q, 6.626e-34);
      MultiplyScaled(a, q * 6.626e-34, 6.022e23);
    } else if units != "J/mol" {
      DivideScaled(a, value, if units == "kJ/mol" then 1000.0 else if units == "kcal/mol" then 4184.0 else 4.184);
    }
  }

  /** Every heat-capacity conversion is linear. */
  lemma HeatCapacityLinear(a: real, value: real, units: string)
    requires units in HeatCapacityUnits
    ensures HeatCapacityTo(a * value, units).value == a * HeatCapacityTo(value, units).value
  {
    if units == "cal/mol*K" {
      DivideScaled(a, value, 4.184);
    }
  }

  /** Celsius and Fahrenheit are only affine: 0 does not map to 0 in either direction. */
  lemma TemperatureAffine(units: string)
    requires units == "C" || units == "F"
    ensures TemperatureFrom(0.0, units).value != 0.0 && TemperatureTo(0.0, units).value != 0.0
  {
  }

  lemma DivideScaled(a: real, v: real, d: real)
    requires d != 0.0
    ensures a * v / d == a * (v / d)
  {
  }

  lemma MultiplyScaled(a: real, v: real, m: real)
    ensures a * v * m == a * (v * m)
  {
  }
}
