/** The unit model (src/lib/utils/unit.ts): the tablespoon-ratio table with its
    two-step converter, the standard volume and mass unit lists with their
    labels, and the conversion lookup that the other modules import. */
module Units {
  import opened Wrappers
  import opened Records
  import opened Schema

  // ---------------------------------------------------------------------
  // Tablespoon-ratio converter
  // ---------------------------------------------------------------------

  /** The closed `Unit` union of unit.ts. */
  datatype Unit = Pint | Cup | Pack | Tbs | Oz | Tsp | Hint | Can | G | Ml

  /** How many tablespoons one `u` is (`TbsMultipliers`). */
  function TbsMultiplier(u: Unit): (m: real)
    ensures m > 0.0
  {
    match u
    case Tbs => 1.0
    case Pint => 38.43
    case Oz => 0.5
    case Tsp => 0.3333
    case Hint => 0.001
    case Cup => 16.0
    case Pack => 7.0
    case Can => 28.0
    case G => 1.0 / 15.0
    case Ml => 1.0 / 14.7868
  }

  /** `convertUnit`: through tablespoons.  The result holds as many
      tablespoons as the input amount does. */
  function ConvertUnit(amount: real, input: Unit, output: Unit): (r: real)
    ensures r * TbsMultiplier(output) == TbsMultiplier(input) * amount
  {
    Through(amount, TbsMultiplier(input), TbsMultiplier(output))
  }

  /** `amount` of a unit worth `mIn` tablespoons, expressed in a unit worth
      `mOut`. */
  function Through(amount: real, mIn: real, mOut: real): (r: real)
    requires mOut > 0.0
    ensures r * mOut == mIn * amount
  {
    var tbsAmount := mIn * amount;
    tbsAmount / mOut
  }

  lemma ConvertSameUnit(amount: real, u: Unit)
    ensures ConvertUnit(amount, u, u) == amount
  {
  }

  lemma ConvertRoundTrip(amount: real, x: Unit, y: Unit)
    ensures ConvertUnit(ConvertUnit(amount, x, y), y, x) == amount
  {
    var mid := ConvertUnit(amount, x, y);
    var back := ConvertUnit(mid, y, x);
    assert back * TbsMultiplier(x) == TbsMultiplier(y) * mid;
    assert mid * TbsMultiplier(y) == TbsMultiplier(x) * amount;
    assert back * TbsMultiplier(x) == amount * TbsMultiplier(x);
  }

  lemma ConvertCompose(amount: real, x: Unit, y: Unit, z: Unit)
    ensures ConvertUnit(ConvertUnit(amount, x, y), y, z) == ConvertUnit(amount, x, z)
  {
    var mid := ConvertUnit(amount, x, y);
    var two := ConvertUnit(mid, y, z);
    var one := ConvertUnit(amount, x, z);
    assert two * TbsMultiplier(z) == TbsMultiplier(y) * mid == TbsMultiplier(x) * amount;
    assert one * TbsMultiplier(z) == TbsMultiplier(x) * amount;
  }

  /** Scaling the amount scales the converted amount. */
  lemma ThroughLinear(k: real, amount: real, mIn: real, mOut: real)
    requires mOut > 0.0
    ensures Through(k * amount, mIn, mOut) == k * Through(amount, mIn, mOut)
  {
    var q := Through(amount, mIn, mOut);
    assert (k * q) * mOut == k * (q * mOut);
    assert mIn * (k * amount) == k * (mIn * amount);
  }

  lemma ConvertLinear(k: real, amount: real, x: Unit, y: Unit)
    ensures ConvertUnit(k * amount, x, y) == k * ConvertUnit(amount, x, y)
  {
    ThroughLinear(k, amount, TbsMultiplier(x), TbsMultiplier(y));
  }

  lemma ConvertZero(x: Unit, y: Unit)
    ensures ConvertUnit(0.0, x, y) == 0.0
  {
  }

  /** One cup is sixteen tablespoons. */
  lemma ConvertCupToTbs()
    ensures ConvertUnit(1.0, Cup, Tbs) == 16.0
  {
    assert Through(1.0, 16.0, 1.0) == 16.0;
  }

  /** Sixteen tablespoons are one cup. */
  lemma ConvertTbsToCup()
    ensures ConvertUnit(16.0, Tbs, Cup) == 1.0
  {
    assert Through(16.0, 1.0, 16.0) == 1.0;
  }

  /** One ounce is half a tablespoon in this table. */
  lemma ConvertOzToTbs()
    ensures ConvertUnit(1.0, Oz, Tbs) == 0.5
  {
    assert Through(1.0, 0.5, 1.0) == 0.5;
  }

  // ---------------------------------------------------------------------
  // Standard unit lists and labels
  // ---------------------------------------------------------------------

  /** `volumeUnits`, in their canonical order. */
  const VolumeUnits: seq<string> := ["pint", "cup", "tbs", "oz", "tsp", "can", "ml", "litre"]

  /** `massUnits`, in their canonical order. */
  const MassUnits: seq<string> := ["g", "kg"]

  const VolumeUnitLabels: Record<string> := [
    ("pint", "Pint"), ("cup", "Cup"), ("tbs", "Tablespoon"), ("oz", "Ounce"),
    ("tsp", "Teaspoon"), ("can", "Can"), ("ml", "Milliliter"), ("litre", "Litre")]

  const MassUnitLabels: Record<string> := [("g", "Gram"), ("kg", "Kilogram")]

  predicate IsVolumeUnit(u: string) {
    u in VolumeUnits
  }

  predicate IsMassUnit(u: string) {
    u in MassUnits
  }

  /** Two standard units of one family: always intrinsically convertible. */
  predicate SameStandardFamily(a: string, b: string) {
    (IsVolumeUnit(a) && IsVolumeUnit(b)) || (IsMassUnit(a) && IsMassUnit(b))
  }

  // ---------------------------------------------------------------------
  // Conversion lookup
  // ---------------------------------------------------------------------

  /** `getConversionFactor(inputUnit, outputUnit, ingredientId, conversions)`:
      the factor F with amount-in-output = amount-in-input * F, or `None` where
      the source throws for want of a conversion path.  The graph search that
      computes it is not part of this model, so every operation that needs it
      takes it as a parameter. */
  type Resolver = (string, string, string, seq<UnitConversion>) -> Option<real>

  /** `hasConversion`: exactly when the lookup succeeds. */
  predicate HasConversion(resolve: Resolver, input: string, output: string, id: string, conversions: seq<UnitConversion>) {
    resolve(input, output, id, conversions).Some?
  }

  /** What every conversion lookup is known to do: a unit converts to itself
      with factor 1, and two standard units of one family always convert. */
  ghost predicate ValidResolver(resolve: Resolver) {
    && (forall u, id, cs :: resolve(u, u, id, cs) == Some(1.0))
    && (forall a, b, id, cs :: SameStandardFamily(a, b) ==> resolve(a, b, id, cs).Some?)
  }
}
