/** Unit-select helpers (src/lib/utils/unitSelectUtils.ts, lines 1-161): the
    combined label table, the option groups, the units an ingredient is
    portioned in, and the missing-conversion report for one ingredient. */
module UnitSelectUtils {
  import opened Wrappers
  import opened Seqs
  import opened Records
  import opened Schema
  import opened Units
  import opened UnitCategoryUtils

  // ---------------------------------------------------------------------
  // buildUnitLabels
  // ---------------------------------------------------------------------

  /** The label of a standard unit: the mass table first, since it is spread
      after the volume table. */
  function StandardLabel(k: string): Option<string> {
    if k in MassUnits then Get(MassUnitLabels, k) else Get(VolumeUnitLabels, k)
  }

  lemma StandardTables()
    ensures Keys(VolumeUnitLabels) == VolumeUnits && KeysDistinct(VolumeUnitLabels)
    ensures Keys(MassUnitLabels) == MassUnits && KeysDistinct(MassUnitLabels)
  {
    assert Keys(VolumeUnitLabels) == VolumeUnits;
    assert Keys(MassUnitLabels) == MassUnits;
  }

  /** The standard table `{...volumeUnitLabels, ...massUnitLabels}`. */
  const StandardLabels: Record<string> := Merge(VolumeUnitLabels, MassUnitLabels)

  lemma StandardLabelsLookup()
    ensures KeysDistinct(StandardLabels)
    ensures forall k :: Get(StandardLabels, k) == StandardLabel(k)
    ensures forall k :: Get(StandardLabels, k).Some? <==> k in VolumeUnits || k in MassUnits
  {
    StandardTables();
    forall k
      ensures Get(StandardLabels, k) == StandardLabel(k)
      ensures Get(StandardLabels, k).Some? <==> k in VolumeUnits || k in MassUnits
    {
      MergeGet(VolumeUnitLabels, MassUnitLabels, k);
      if k !in MassUnits {
        assert Get(MassUnitLabels, k).None?;
      }
    }
  }

  /** `buildUnitLabels`: `{...volumeUnitLabels, ...massUnitLabels, ...custom}`.
      A custom label replaces the standard one of the same key; every other
      standard unit keeps its standard label. */
  function BuildUnitLabels(customUnitLabels: Record<string>): (r: Record<string>)
    ensures KeysDistinct(customUnitLabels) ==>
              forall k :: Get(customUnitLabels, k).Some? ==> Get(r, k) == Get(customUnitLabels, k)
    ensures forall k :: Get(customUnitLabels, k).None? ==> Get(r, k) == StandardLabel(k)
    ensures forall k :: Get(r, k).Some? <==> k in VolumeUnits || k in MassUnits || Get(customUnitLabels, k).Some?
    ensures KeysDistinct(r)
  {
    StandardLabelsLookup();
    var r := Merge(StandardLabels, customUnitLabels);
    assert forall k :: && (Get(customUnitLabels, k).None? ==> Get(r, k) == Get(StandardLabels, k))
                       && (KeysDistinct(customUnitLabels) && Get(customUnitLabels, k).Some? ==>
                             Get(r, k) == Get(customUnitLabels, k))
                       && (Get(r, k).Some? <==> Get(StandardLabels, k).Some? || Get(customUnitLabels, k).Some?) by {
      forall k
        ensures && (Get(customUnitLabels, k).None? ==> Get(r, k) == Get(StandardLabels, k))
                && (KeysDistinct(customUnitLabels) && Get(customUnitLabels, k).Some? ==>
                      Get(r, k) == Get(customUnitLabels, k))
                && (Get(r, k).Some? <==> Get(StandardLabels, k).Some? || Get(customUnitLabels, k).Some?)
      {
        MergeGet(StandardLabels, customUnitLabels, k);
      }
    }
    r
  }

  /** The standard labels of two units, one from each table. */
  lemma CupLabel()
    ensures StandardLabel("cup") == Some("Cup")
  {
    StandardTables();
    assert VolumeUnitLabels[1] == ("cup", "Cup");
  }

  lemma KgLabel()
    ensures StandardLabel("kg") == Some("Kilogram")
  {
    StandardTables();
    assert MassUnitLabels[1] == ("kg", "Kilogram");
  }

  /** The custom table of the extension example. */
  predicate BunchAndPack(custom: Record<string>) {
    custom == [("bunch", "Bunch"), ("pack", "Pack")]
  }

  lemma KeepsVolumeLabel(custom: Record<string>)
    requires BunchAndPack(custom)
    ensures Get(BuildUnitLabels(custom), "cup") == Some("Cup")
  {
    assert Get(custom, "cup").None?;
    CupLabel();
  }

  lemma KeepsMassLabel(custom: Record<string>)
    requires BunchAndPack(custom)
    ensures Get(BuildUnitLabels(custom), "kg") == Some("Kilogram")
  {
    assert Get(custom, "kg").None?;
    KgLabel();
  }

  lemma AddsCustomLabel(custom: Record<string>)
    requires BunchAndPack(custom)
    ensures Get(BuildUnitLabels(custom), "pack") == Some("Pack")
  {
    assert Keys(custom) == ["bunch", "pack"];
    assert KeysDistinct(custom);
    assert Get(custom, "pack") == Some("Pack") by {
      assert custom[1] == ("pack", "Pack");
    }
  }

  /** Custom labels extend the standard table. */
  lemma BuildUnitLabelsExtends(custom: Record<string>)
    requires BunchAndPack(custom)
    ensures Get(BuildUnitLabels(custom), "cup") == Some("Cup")
    ensures Get(BuildUnitLabels(custom), "kg") == Some("Kilogram")
    ensures Get(BuildUnitLabels(custom), "pack") == Some("Pack")
  {
    KeepsVolumeLabel(custom);
    KeepsMassLabel(custom);
    AddsCustomLabel(custom);
  }

  /** A custom label replaces the standard one of the same unit. */
  lemma BuildUnitLabelsOverride()
    ensures Get(BuildUnitLabels([("cup", "My Custom Cup")]), "cup") == Some("My Custom Cup")
  {
    assert Keys([("cup", "My Custom Cup")]) == ["cup"];
  }

  // ---------------------------------------------------------------------
  // buildUnitGroups
  // ---------------------------------------------------------------------

  /** A titled list of options. */
  datatype UnitOptionGroup = UnitOptionGroup(text: string, options: seq<UnitOption>)

  /** `labels[u]`, with the empty string where the table has no entry. */
  function LabelIn(labels: Record<string>, u: string): string {
    match Get(labels, u)
    case Some(l) => l
    case None => ""
  }

  /** `units.map(unit => ({label: labels[unit], id: unit}))`. */
  function StandardOptions(units: seq<string>, labels: Record<string>): (os: seq<UnitOption>)
    ensures |os| == |units|
    ensures forall i :: 0 <= i < |units| ==> os[i] == UnitOption(units[i], LabelIn(labels, units[i]))
  {
    seq(|units|, i requires 0 <= i < |units| => UnitOption(units[i], LabelIn(labels, units[i])))
  }

  /** Looking each unit of a table's key list up in that table gives the
      table's entries back. */
  lemma {:induction false} LookupOptions(labels: Record<string>)
    requires KeysDistinct(labels)
    ensures StandardOptions(Keys(labels), labels) == OptionsOf(labels)
  {
    forall i | 0 <= i < |labels|
      ensures StandardOptions(Keys(labels), labels)[i] == OptionsOf(labels)[i]
    {
      assert Get(labels, labels[i].0) == Some(labels[i].1);
    }
  }

  /** `buildUnitGroups`: exactly three groups, Volume, Mass and Custom in that
      order, holding the same options as `getUnitsByCategory` gives for each
      category. */
  function BuildUnitGroups(customUnitLabels: Record<string>): (gs: seq<UnitOptionGroup>)
    ensures |gs| == 3
    ensures gs[0].text == "Volume" && gs[1].text == "Mass" && gs[2].text == "Custom"
    ensures gs[0].options == GetUnitsByCategory(Volume, customUnitLabels)
    ensures gs[1].options == GetUnitsByCategory(Mass, customUnitLabels)
    ensures gs[2].options == GetUnitsByCategory(Custom, customUnitLabels)
    ensures |gs[2].options| == |customUnitLabels|
  {
    StandardTables();
    LookupOptions(VolumeUnitLabels);
    LookupOptions(MassUnitLabels);
    var customOptions := seq(|customUnitLabels|, i requires 0 <= i < |customUnitLabels| =>
                               UnitOption(customUnitLabels[i].0, customUnitLabels[i].1));
    [UnitOptionGroup("Volume", StandardOptions(VolumeUnits, VolumeUnitLabels)),
     UnitOptionGroup("Mass", StandardOptions(MassUnits, MassUnitLabels)),
     UnitOptionGroup("Custom", customOptions)]
  }

  // ---------------------------------------------------------------------
  // getPortionUnitsForIngredient / getRecipesUsingIngredientWithUnit
  // ---------------------------------------------------------------------

  /** A visible line for `id` portioned in `u`. */
  predicate LineWithUnit(line: IngredientLine, id: string, u: string) {
    line.id == id && !line.hidden && line.portion.unit == u
  }

  predicate UsesWithUnit(recipe: RecipeDoc, id: string, u: string) {
    exists j :: 0 <= j < |recipe.ingredients| && LineWithUnit(recipe.ingredients[j], id, u)
  }

  /** `getRecipesUsingIngredientWithUnit`: the recipes, in order, with a
      visible line for `id` in unit `u`. */
  function GetRecipesUsingIngredientWithUnit(id: string, u: string, recipes: Record<RecipeDoc>): (r: seq<RecipeDoc>)
    ensures forall rec :: rec in r <==> rec in Values(recipes) && UsesWithUnit(rec, id, u)
    ensures forall rec: RecipeDoc :: UsesWithUnit(rec, id, u) ==> multiset(r)[rec] == multiset(Values(recipes))[rec]
    ensures IsSubsequence(r, Values(recipes))
  {
    Filter(Values(recipes), (rec: RecipeDoc) => UsesWithUnit(rec, id, u))
  }

  /** The units of the visible lines for `id` in `lines`, in order, repeats
      included. */
  function LineUnits(lines: seq<IngredientLine>, id: string): seq<string>
    decreases |lines|
  {
    if lines == [] then []
    else
      var l := lines[|lines| - 1];
      LineUnits(lines[..|lines| - 1], id) + if LineWithUnit(l, id, l.portion.unit) then [l.portion.unit] else []
  }

  /** The units of the visible lines for `id`, recipe after recipe. */
  function UnitStream(rs: seq<RecipeDoc>, id: string): seq<string>
    decreases |rs|
  {
    if rs == [] then [] else UnitStream(rs[..|rs| - 1], id) + LineUnits(rs[|rs| - 1].ingredients, id)
  }

  /** A unit is in a list's stream exactly when a visible line for `id` uses it. */
  lemma {:induction false} LineUnitsMembers(lines: seq<IngredientLine>, id: string, u: string)
    ensures u in LineUnits(lines, id) <==> exists m :: 0 <= m < |lines| && LineWithUnit(lines[m], id, u)
    decreases |lines|
  {
    if lines != [] {
      var n := |lines| - 1;
      LineUnitsMembers(lines[..n], id, u);
      if exists m :: 0 <= m < n && LineWithUnit(lines[..n][m], id, u) {
        var m :| 0 <= m < n && LineWithUnit(lines[..n][m], id, u);
        assert lines[m] == lines[..n][m];
      }
      if exists m :: 0 <= m < |lines| && LineWithUnit(lines[m], id, u) {
        var m :| 0 <= m < |lines| && LineWithUnit(lines[m], id, u);
        if m < n {
          assert lines[..n][m] == lines[m];
        }
      }
    }
  }

  /** A unit is in the stream exactly when some recipe has a visible line for
      `id` in it. */
  lemma {:induction false} UnitStreamMembers(rs: seq<RecipeDoc>, id: string, u: string)
    ensures u in UnitStream(rs, id) <==> exists k :: 0 <= k < |rs| && UsesWithUnit(rs[k], id, u)
    decreases |rs|
  {
    if rs != [] {
      var n := |rs| - 1;
      UnitStreamMembers(rs[..n], id, u);
      LineUnitsMembers(rs[n].ingredients, id, u);
      if exists k :: 0 <= k < n && UsesWithUnit(rs[..n][k], id, u) {
        var k :| 0 <= k < n && UsesWithUnit(rs[..n][k], id, u);
        assert rs[k] == rs[..n][k];
      }
      if exists k :: 0 <= k < |rs| && UsesWithUnit(rs[k], id, u) {
        var k :| 0 <= k < |rs| && UsesWithUnit(rs[k], id, u);
        if k < n {
          assert rs[..n][k] == rs[k];
        }
      }
    }
  }

  /** Reading one more line extends the deduplicated units by its unit when
      that unit is new. */
  lemma UnitsStep(seen: seq<string>, lines: seq<IngredientLine>, id: string, j: nat)
    requires j < |lines|
    ensures var l := lines[j];
            var before := Distinct(seen + LineUnits(lines[..j], id));
            Distinct(seen + LineUnits(lines[..j + 1], id)) ==
              if LineWithUnit(l, id, l.portion.unit) && l.portion.unit !in before then before + [l.portion.unit]
              else before
  {
    var l := lines[j];
    var pre := lines[..j + 1];
    assert pre[..j] == lines[..j] && pre[j] == l;
    var prior := seen + LineUnits(lines[..j], id);
    if LineWithUnit(l, id, l.portion.unit) {
      assert LineUnits(pre, id) == LineUnits(lines[..j], id) + [l.portion.unit];
      assert seen + LineUnits(pre, id) == prior + [l.portion.unit];
      DistinctSnoc(prior, l.portion.unit);
    } else {
      assert LineUnits(pre, id) == LineUnits(lines[..j], id) + [];
      assert seen + LineUnits(pre, id) == prior;
    }
  }

  /** `getPortionUnitsForIngredient`: the units of the visible lines for `id`
      across all recipes, each once, in order of first use; a unit is listed
      exactly when some recipe would be returned by
      `getRecipesUsingIngredientWithUnit` for it. */
  method GetPortionUnitsForIngredient(id: string, recipes: Record<RecipeDoc>) returns (units: seq<string>)
    ensures NoDup(units)
    ensures forall u :: u in units <==> exists i :: 0 <= i < |recipes| && UsesWithUnit(recipes[i].1, id, u)
    ensures forall u :: u in units <==> GetRecipesUsingIngredientWithUnit(id, u, recipes) != []
    ensures units == Distinct(UnitStream(Values(recipes), id))
  {
    var rs := Values(recipes);
    units := [];
    var i := 0;
    while i < |rs|
      invariant 0 <= i <= |rs|
      invariant units == Distinct(UnitStream(rs[..i], id))
    {
      var lines := rs[i].ingredients;
      var seen := UnitStream(rs[..i], id);
      assert seen + LineUnits(lines[..0], id) == seen;
      var j := 0;
      while j < |lines|
        invariant 0 <= j <= |lines|
        invariant units == Distinct(seen + LineUnits(lines[..j], id))
      {
        UnitsStep(seen, lines, id, j);
        if lines[j].id == id && !lines[j].hidden && lines[j].portion.unit !in units {
          units := units + [lines[j].portion.unit];
        }
        j := j + 1;
      }
      assert lines[..j] == lines;
      assert rs[..i + 1][..i] == rs[..i];
      i := i + 1;
    }
    assert rs[..i] == rs;
    forall u
      ensures u in units <==> exists k :: 0 <= k < |recipes| && UsesWithUnit(recipes[k].1, id, u)
    {
      UnitStreamMembers(rs, id, u);
    }
    forall u | GetRecipesUsingIngredientWithUnit(id, u, recipes) != []
      ensures u in units
    {
      var r := GetRecipesUsingIngredientWithUnit(id, u, recipes);
      assert r[0] in Values(recipes);
    }
  }

  // ---------------------------------------------------------------------
  // getUnitType
  // ---------------------------------------------------------------------

  /** `getUnitType`: `'volume'`, `'mass'` or `'custom'`. */
  function GetUnitType(unit: string): (t: string)
    ensures t == "volume" <==> unit in VolumeUnits
    ensures t == "mass" <==> unit in MassUnits
    ensures t == "custom" <==> unit !in VolumeUnits && unit !in MassUnits
    ensures t == "volume" || t == "mass" || t == "custom"
  {
    if unit in VolumeUnits then "volume"
    else if unit in MassUnits then "mass"
    else "custom"
  }

  /** The lower-case tag of a category. */
  function TypeTag(c: UnitCategory): string {
    match c
    case Volume => "volume"
    case Mass => "mass"
    case Custom => "custom"
  }

  /** `getUnitType` and `getUnitCategory` classify every string alike. */
  lemma UnitTypeMatchesCategory(unit: string)
    ensures GetUnitType(unit) == TypeTag(GetUnitCategory(unit))
  {
  }

  // ---------------------------------------------------------------------
  // findMissingConversions
  // ---------------------------------------------------------------------

  /** `{inputUnit, outputUnit}`: a conversion that has to be supplied. */
  datatype ConversionPair = ConversionPair(inputUnit: string, outputUnit: string)

  /** Two unit types that need a cross-type conversion: different, and
      neither custom. */
  predicate CrossTypes(a: string, b: string) {
    a != b && a != "custom" && b != "custom"
  }

  /** A conversion between a volume unit and a mass unit, either way. */
  predicate CrossPair(input: string, output: string) {
    CrossTypes(GetUnitType(input), GetUnitType(output))
  }

  lemma CrossPairMeansVolumeAndMass(input: string, output: string)
    ensures CrossPair(input, output) <==>
            (IsVolumeUnit(input) && IsMassUnit(output)) || (IsMassUnit(input) && IsVolumeUnit(output))
  {
  }

  /** `${fromType}:${toType}`. */
  function TypePairKey(fromType: string, toType: string): string {
    fromType + ":" + toType
  }

  /** The standard type other than `t`. */
  function OtherType(t: string): string {
    if t == "volume" then "mass" else "volume"
  }

  lemma TypePairKeysDiffer()
    ensures TypePairKey("volume", "mass") != TypePairKey("mass", "volume")
  {
    assert TypePairKey("volume", "mass")[0] == 'v';
  }

  /** Some entry of `missing` is a volume/mass conversion to `target`. */
  predicate HasCrossEntry(missing: seq<ConversionPair>, target: string) {
    exists a :: 0 <= a < |missing| && CrossPair(missing[a].inputUnit, target)
  }

  lemma HasCrossEntryAppend(missing: seq<ConversionPair>, p: ConversionPair, target: string)
    ensures HasCrossEntry(missing + [p], target) <==> HasCrossEntry(missing, target) || CrossPair(p.inputUnit, target)
  {
    var m := missing + [p];
    if HasCrossEntry(m, target) && !CrossPair(p.inputUnit, target) {
      var a :| 0 <= a < |m| && CrossPair(m[a].inputUnit, target);
      assert a < |missing| && m[a] == missing[a];
    }
    if HasCrossEntry(missing, target) {
      var a :| 0 <= a < |missing| && CrossPair(missing[a].inputUnit, target);
      assert m[a] == missing[a];
    }
    if CrossPair(p.inputUnit, target) {
      assert m[|missing|] == p;
    }
  }

  /** A portion unit that lacks a conversion to the target. */
  predicate Gap(u: string, target: string, id: string, conversions: seq<UnitConversion>, resolve: Resolver) {
    u != target && !HasConversion(resolve, u, target, id, conversions)
  }

  predicate CrossGap(u: string, target: string, id: string, conversions: seq<UnitConversion>, resolve: Resolver) {
    Gap(u, target, id, conversions, resolve) && CrossPair(u, target)
  }

  /** The walk's state: the conversions reported so far and the
      `fromType:toType` keys of the volume/mass conversions among them. */
  datatype FindState = FindState(missing: seq<ConversionPair>, added: set<string>)

  /** One portion unit of `findMissingConversions`: skip the target itself and
      units that already convert; report a volume/mass gap only when no gap
      between those two types was reported before; report every other gap. */
  function FindStep(st: FindState, u: string, target: string, id: string,
                    conversions: seq<UnitConversion>, resolve: Resolver): FindState
  {
    if u == target || HasConversion(resolve, u, target, id, conversions) then st
    else
      var portionType := GetUnitType(u);
      var targetType := GetUnitType(target);
      if CrossTypes(portionType, targetType) then
        if TypePairKey(portionType, targetType) in st.added || TypePairKey(targetType, portionType) in st.added then st
        else FindState(st.missing + [ConversionPair(u, target)], st.added + {TypePairKey(portionType, targetType)})
      else FindState(st.missing + [ConversionPair(u, target)], st.added)
  }

  /** The state after the walk over `us`, in order. */
  function FindAll(us: seq<string>, target: string, id: string,
                   conversions: seq<UnitConversion>, resolve: Resolver): FindState
    decreases |us|
  {
    if us == [] then FindState([], {})
    else FindStep(FindAll(us[..|us| - 1], target, id, conversions, resolve), us[|us| - 1], target, id, conversions, resolve)
  }

  /** Every reported entry is a gap from a walked unit to the target. */
  lemma {:induction false} FindAllSound(us: seq<string>, target: string, id: string,
                                        conversions: seq<UnitConversion>, resolve: Resolver)
    ensures forall e :: e in FindAll(us, target, id, conversions, resolve).missing ==>
              e.outputUnit == target && e.inputUnit in us && Gap(e.inputUnit, target, id, conversions, resolve)
    decreases |us|
  {
    if us != [] {
      var n := |us| - 1;
      FindAllSound(us[..n], target, id, conversions, resolve);
      assert forall x :: x in us[..n] ==> x in us;
    }
  }

  /** The key set is non-empty exactly when a volume/mass gap was reported,
      which happens exactly when one was met. */
  lemma {:induction false} FindAllShape(us: seq<string>, target: string, id: string,
                                        conversions: seq<UnitConversion>, resolve: Resolver)
    ensures var st := FindAll(us, target, id, conversions, resolve);
            var tt := GetUnitType(target);
            st.added == if HasCrossEntry(st.missing, target) then {TypePairKey(OtherType(tt), tt)} else {}
    ensures var st := FindAll(us, target, id, conversions, resolve);
            HasCrossEntry(st.missing, target) <==>
            exists k :: 0 <= k < |us| && CrossGap(us[k], target, id, conversions, resolve)
    decreases |us|
  {
    if us != [] {
      var n := |us| - 1;
      var pre := us[..n];
      FindAllShape(pre, target, id, conversions, resolve);
      var st := FindAll(pre, target, id, conversions, resolve);
      assert forall k :: 0 <= k < n ==> pre[k] == us[k];
      FindStepShape(st, us[n], target, id, conversions, resolve);
    }
  }

  /** One step keeps the key set in line with the reported list, and reports
      a volume/mass gap exactly when none was reported before. */
  lemma FindStepShape(st: FindState, u: string, target: string, id: string,
                      conversions: seq<UnitConversion>, resolve: Resolver)
    requires var tt := GetUnitType(target);
             st.added == if HasCrossEntry(st.missing, target) then {TypePairKey(OtherType(tt), tt)} else {}
    ensures var st' := FindStep(st, u, target, id, conversions, resolve);
            var tt := GetUnitType(target);
            st'.added == if HasCrossEntry(st'.missing, target) then {TypePairKey(OtherType(tt), tt)} else {}
    ensures var st' := FindStep(st, u, target, id, conversions, resolve);
            HasCrossEntry(st'.missing, target) <==>
            HasCrossEntry(st.missing, target) || CrossGap(u, target, id, conversions, resolve)
  {
    if !(u == target || HasConversion(resolve, u, target, id, conversions)) {
      HasCrossEntryAppend(st.missing, ConversionPair(u, target), target);
      TypePairKeysDiffer();
    }
  }

  /** The reported list only grows along the walk. */
  lemma FindStepGrows(st: FindState, u: string, target: string, id: string,
                      conversions: seq<UnitConversion>, resolve: Resolver)
    ensures var st' := FindStep(st, u, target, id, conversions, resolve);
            st.missing <= st'.missing
  {
  }

  /** At most one entry of `missing` is a volume/mass conversion to `target`. */
  predicate OneCrossTo(missing: seq<ConversionPair>, target: string) {
    forall a, b :: 0 <= a < b < |missing| && CrossPair(missing[a].inputUnit, target) ==>
                     !CrossPair(missing[b].inputUnit, target)
  }

  /** One step never reports a second volume/mass conversion. */
  lemma FindStepOneCross(st: FindState, u: string, target: string, id: string,
                         conversions: seq<UnitConversion>, resolve: Resolver)
    requires var tt := GetUnitType(target);
             st.added == if HasCrossEntry(st.missing, target) then {TypePairKey(OtherType(tt), tt)} else {}
    requires OneCrossTo(st.missing, target)
    ensures OneCrossTo(FindStep(st, u, target, id, conversions, resolve).missing, target)
  {
    var m := FindStep(st, u, target, id, conversions, resolve).missing;
    if m != st.missing {
      assert m == st.missing + [ConversionPair(u, target)];
      TypePairKeysDiffer();
      forall a | 0 <= a < |st.missing| && CrossPair(m[a].inputUnit, target)
        ensures !CrossPair(u, target)
      {
        assert m[a] == st.missing[a];
        assert HasCrossEntry(st.missing, target);
      }
    }
  }

  /** At most one volume/mass conversion is reported. */
  lemma {:induction false} FindAllOneCross(us: seq<string>, target: string, id: string,
                                           conversions: seq<UnitConversion>, resolve: Resolver)
    ensures var m := FindAll(us, target, id, conversions, resolve).missing;
            forall a, b :: 0 <= a < b < |m| && CrossPair(m[a].inputUnit, target) ==> !CrossPair(m[b].inputUnit, target)
    decreases |us|
  {
    if us != [] {
      var n := |us| - 1;
      var pre := us[..n];
      FindAllOneCross(pre, target, id, conversions, resolve);
      FindAllShape(pre, target, id, conversions, resolve);
      FindStepOneCross(FindAll(pre, target, id, conversions, resolve), us[n], target, id, conversions, resolve);
    }
  }

  /** Every gap that is not volume/mass is reported. */
  lemma {:induction false} FindAllComplete(us: seq<string>, target: string, id: string,
                                           conversions: seq<UnitConversion>, resolve: Resolver)
    ensures var m := FindAll(us, target, id, conversions, resolve).missing;
            forall u :: (u in us && Gap(u, target, id, conversions, resolve) && !CrossPair(u, target)) ==>
              ConversionPair(u, target) in m
    decreases |us|
  {
    if us != [] {
      var n := |us| - 1;
      var pre := us[..n];
      FindAllComplete(pre, target, id, conversions, resolve);
      FindStepGrows(FindAll(pre, target, id, conversions, resolve), us[n], target, id, conversions, resolve);
      assert us == pre + [us[n]];
    }
  }

  /** The first volume/mass gap in list order is the one reported. */
  lemma {:induction false} FindAllFirstCross(us: seq<string>, target: string, id: string,
                                             conversions: seq<UnitConversion>, resolve: Resolver, i: nat)
    requires i < |us| && CrossGap(us[i], target, id, conversions, resolve)
    requires forall j :: 0 <= j < i ==> !CrossGap(us[j], target, id, conversions, resolve)
    ensures ConversionPair(us[i], target) in FindAll(us, target, id, conversions, resolve).missing
    decreases |us|
  {
    var n := |us| - 1;
    var pre := us[..n];
    var st := FindAll(pre, target, id, conversions, resolve);
    FindStepGrows(st, us[n], target, id, conversions, resolve);
    if i < n {
      assert pre[i] == us[i];
      assert forall j :: 0 <= j < i ==> pre[j] == us[j];
      FindAllFirstCross(pre, target, id, conversions, resolve, i);
    } else {
      FindAllShape(pre, target, id, conversions, resolve);
      forall k | 0 <= k < n
        ensures !CrossGap(pre[k], target, id, conversions, resolve)
      {
        assert pre[k] == us[k];
      }
      assert !HasCrossEntry(st.missing, target);
      TypePairKeysDiffer();
    }
  }

  /** The input units of reported conversions, in report order. */
  function InputUnits(m: seq<ConversionPair>): (us: seq<string>)
    ensures |us| == |m|
    ensures forall i :: 0 <= i < |m| ==> us[i] == m[i].inputUnit
  {
    seq(|m|, i requires 0 <= i < |m| => m[i].inputUnit)
  }

  /** Reports come out in the order of the portion units. */
  lemma {:induction false} FindAllOrder(us: seq<string>, target: string, id: string,
                                        conversions: seq<UnitConversion>, resolve: Resolver)
    ensures IsSubsequence(InputUnits(FindAll(us, target, id, conversions, resolve).missing), us)
    decreases |us|
  {
    if us != [] {
      var n := |us| - 1;
      var prior := FindAll(us[..n], target, id, conversions, resolve).missing;
      var now := FindAll(us, target, id, conversions, resolve).missing;
      FindAllOrder(us[..n], target, id, conversions, resolve);
      assert us == us[..n] + [us[n]];
      SubsequenceSnoc(InputUnits(prior), us[..n], us[n]);
      if now != prior {
        assert now == prior + [ConversionPair(us[n], target)];
        assert InputUnits(now) == InputUnits(prior) + [us[n]];
      }
    }
  }

  /** A gap that is not volume/mass is reported once per occurrence of its
      unit. */
  lemma {:induction false} FindAllCount(us: seq<string>, target: string, id: string,
                                        conversions: seq<UnitConversion>, resolve: Resolver, u: string)
    requires Gap(u, target, id, conversions, resolve) && !CrossPair(u, target)
    ensures multiset(InputUnits(FindAll(us, target, id, conversions, resolve).missing))[u] == multiset(us)[u]
    decreases |us|
  {
    if us != [] {
      var n := |us| - 1;
      var prior := FindAll(us[..n], target, id, conversions, resolve).missing;
      var now := FindAll(us, target, id, conversions, resolve).missing;
      FindAllCount(us[..n], target, id, conversions, resolve, u);
      assert us == us[..n] + [us[n]];
      if now != prior {
        assert now == prior + [ConversionPair(us[n], target)];
        assert InputUnits(now) == InputUnits(prior) + [us[n]];
      }
    }
  }

  /** `findMissingConversions`: every entry is a gap from a listed portion unit
      to the target; every gap that is not volume/mass is reported; of the
      volume/mass gaps only the first one in list order is. */
  method FindMissingConversions(portionUnits: seq<string>, targetUnit: string, ingredientId: string,
                                conversions: seq<UnitConversion>, resolve: Resolver)
    returns (missing: seq<ConversionPair>)
    ensures forall e :: e in missing ==>
              && e.outputUnit == targetUnit
              && e.inputUnit in portionUnits
              && Gap(e.inputUnit, targetUnit, ingredientId, conversions, resolve)
    ensures forall i, j :: 0 <= i < j < |missing| && CrossPair(missing[i].inputUnit, targetUnit) ==>
              !CrossPair(missing[j].inputUnit, targetUnit)
    ensures forall u :: (u in portionUnits && Gap(u, targetUnit, ingredientId, conversions, resolve) &&
                         !CrossPair(u, targetUnit)) ==> ConversionPair(u, targetUnit) in missing
    ensures forall i :: 0 <= i < |portionUnits| && CrossGap(portionUnits[i], targetUnit, ingredientId, conversions, resolve) &&
                        (forall j :: 0 <= j < i ==> !CrossGap(portionUnits[j], targetUnit, ingredientId, conversions, resolve)) ==>
              ConversionPair(portionUnits[i], targetUnit) in missing
    ensures IsSubsequence(InputUnits(missing), portionUnits)
    ensures forall u :: Gap(u, targetUnit, ingredientId, conversions, resolve) && !CrossPair(u, targetUnit) ==>
              multiset(InputUnits(missing))[u] == multiset(portionUnits)[u]
  {
    var st := FindState([], {});
    var i := 0;
    while i < |portionUnits|
      invariant 0 <= i <= |portionUnits|
      invariant st == FindAll(portionUnits[..i], targetUnit, ingredientId, conversions, resolve)
    {
      assert portionUnits[..i + 1][..i] == portionUnits[..i];
      st := FindStep(st, portionUnits[i], targetUnit, ingredientId, conversions, resolve);
      i := i + 1;
    }
    assert portionUnits[..i] == portionUnits;
    missing := st.missing;
    FindAllSound(portionUnits, targetUnit, ingredientId, conversions, resolve);
    FindAllShape(portionUnits, targetUnit, ingredientId, conversions, resolve);
    FindAllOneCross(portionUnits, targetUnit, ingredientId, conversions, resolve);
    FindAllComplete(portionUnits, targetUnit, ingredientId, conversions, resolve);
    FindAllOrder(portionUnits, targetUnit, ingredientId, conversions, resolve);
    forall u | Gap(u, targetUnit, ingredientId, conversions, resolve) && !CrossPair(u, targetUnit)
      ensures multiset(InputUnits(missing))[u] == multiset(portionUnits)[u]
    {
      FindAllCount(portionUnits, targetUnit, ingredientId, conversions, resolve, u);
    }
    forall k | 0 <= k < |portionUnits| && CrossGap(portionUnits[k], targetUnit, ingredientId, conversions, resolve) &&
               (forall j :: 0 <= j < k ==> !CrossGap(portionUnits[j], targetUnit, ingredientId, conversions, resolve))
      ensures ConversionPair(portionUnits[k], targetUnit) in missing
    {
      FindAllFirstCross(portionUnits, targetUnit, ingredientId, conversions, resolve, k);
    }
  }

  /** Grams and kilograms need nothing to reach grams. */
  lemma FindSameFamilyExample(resolve: Resolver)
    requires ValidResolver(resolve)
    ensures FindAll(["g", "kg"], "g", "flour", [], resolve).missing == []
  {
    assert ["g", "kg"][..1] == ["g"] && ["g"][..0] == [];
    assert resolve("kg", "g", "flour", []).Some?;
  }

  /** Cups, tablespoons and ounces with no path to grams: one volume/mass
      conversion is asked for, the first. */
  lemma FindCrossDedupExample(resolve: Resolver)
    requires forall u :: u in ["cup", "tbs", "oz"] ==> resolve(u, "g", "flour", []).None?
    ensures FindAll(["cup", "tbs", "oz"], "g", "flour", [], resolve).missing == [ConversionPair("cup", "g")]
  {
    var us := ["cup", "tbs", "oz"];
    assert us[..2] == ["cup", "tbs"] && us[..2][..1] == ["cup"] && ["cup"][..0] == [];
    assert FindAll(["cup"], "g", "flour", [], resolve) ==
           FindState([ConversionPair("cup", "g")], {TypePairKey("volume", "mass")});
  }
}
