/** Unit categories (src/lib/utils/unitCategoryUtils.ts): a total
    classification of unit strings and the option lists per category. */
module UnitCategoryUtils {
  import opened Records
  import opened Units

  datatype UnitCategory = Volume | Mass | Custom

  /** A selectable unit: its id and its display label (`text` stands for the
      source's `label` field, a reserved word in Dafny). */
  datatype UnitOption = UnitOption(id: string, text: string)

  /** `getUnitCategory`: defined for every string, the empty one included. */
  function GetUnitCategory(unit: string): (c: UnitCategory)
    ensures c == Volume <==> unit in VolumeUnits
    ensures c == Mass <==> unit in MassUnits
    ensures c == Custom <==> unit !in VolumeUnits && unit !in MassUnits
  {
    if unit in VolumeUnits then Volume
    else if unit in MassUnits then Mass
    else Custom
  }

  /** Each entry of a label table as an option, in table order. */
  function OptionsOf(labels: Record<string>): (os: seq<UnitOption>)
    ensures |os| == |labels|
    ensures forall i :: 0 <= i < |labels| ==> os[i] == UnitOption(labels[i].0, labels[i].1)
  {
    seq(|labels|, i requires 0 <= i < |labels| => UnitOption(labels[i].0, labels[i].1))
  }

  /** `getUnitsByCategory`: the fixed standard lists for Volume and Mass (the
      custom labels are ignored), the custom label table for Custom. */
  function GetUnitsByCategory(category: UnitCategory, customUnitLabels: Record<string>): (os: seq<UnitOption>)
    ensures category == Volume ==> |os| == 8 && forall i :: 0 <= i < 8 ==> os[i].id == VolumeUnits[i]
    ensures category == Mass ==> |os| == 2 && forall i :: 0 <= i < 2 ==> os[i].id == MassUnits[i]
    ensures category != Custom ==> forall o :: o in os ==> GetUnitCategory(o.id) == category
    ensures category == Custom ==> |os| == |customUnitLabels|
    ensures category == Custom ==> forall i :: 0 <= i < |os| ==>
              os[i].id == customUnitLabels[i].0 && os[i].text == customUnitLabels[i].1
  {
    match category
    case Volume => OptionsOf(VolumeUnitLabels)
    case Mass => OptionsOf(MassUnitLabels)
    case Custom => OptionsOf(customUnitLabels)
  }

  lemma VolumeOptionsExactly(customUnitLabels: Record<string>)
    ensures GetUnitsByCategory(Volume, customUnitLabels) == [
      UnitOption("pint", "Pint"), UnitOption("cup", "Cup"), UnitOption("tbs", "Tablespoon"),
      UnitOption("oz", "Ounce"), UnitOption("tsp", "Teaspoon"), UnitOption("can", "Can"),
      UnitOption("ml", "Milliliter"), UnitOption("litre", "Litre")]
  {
  }

  lemma MassOptionsExactly(customUnitLabels: Record<string>)
    ensures GetUnitsByCategory(Mass, customUnitLabels) == [UnitOption("g", "Gram"), UnitOption("kg", "Kilogram")]
  {
  }

  lemma CategoryExamples()
    ensures GetUnitCategory("pint") == Volume && GetUnitCategory("litre") == Volume
    ensures GetUnitCategory("g") == Mass && GetUnitCategory("kg") == Mass
    ensures GetUnitCategory("bunch") == Custom && GetUnitCategory("pack") == Custom
    ensures GetUnitCategory("") == Custom
  {
  }
}
