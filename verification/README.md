# Costra calculation core in Dafny

Costra is a recipe cost calculator. A user keeps a table of purchasable
ingredients (`costs`: each with a product package of some cost, amount and
unit), recipes made of ingredient lines (an id, a portion amount and unit, and
a `hidden` flag), and compound ingredients (recipes whose output is itself an
ingredient, with a yield portion and a viewed unit). This project models the
pure calculation core of the application and proves properties of it:

- the costing engine (`src/lib/utils/costCalculatorUtils.ts`): the cost of each
  recipe line, the recipe total, compounds turned into derived ingredients,
  the merged cost table, and the collection queries;
- the unit-select helpers (`src/lib/utils/unitSelectUtils.ts`): the combined
  label table, the option groups, the portion units of an ingredient, the
  missing-conversion report for one ingredient, and the missing-conversion
  report for a whole import, with its de-duplication of volume/mass gaps;
- unit categories (`src/lib/utils/unitCategoryUtils.ts`);
- the tablespoon-ratio converter (`src/lib/utils/unit.ts`);
- the bounded undo/redo history (`src/lib/utils/history.ts`);
- the numeric and array helpers (`src/lib/utils/math.ts`).

## Layout

| file | module | models |
|---|---|---|
| wrappers.dfy | `Wrappers` | `Option` and `Result` |
| seqs.dfy | `Seqs` | order-preserving `Filter`, subsequence, no-duplicates |
| records.dfy | `Records` | a JavaScript `Record<string, T>` as an ordered list of entries: first-match read, assignment that updates in place or appends, object spread |
| record_fold.dfy | `RecordFold` | the walk shared by `calculateRecipeCosts` and `compoundsToIngredients`: each item is skipped, throws, or assigns under its key |
| schema.dfy | `Schema` | the documents of `src/lib/data/schema.ts` |
| units.dfy | `Units` | `unit.ts`, the standard unit lists and labels, and the conversion lookup as a parameter |
| math.dfy | `MathUtils` | `math.ts` |
| unit_category.dfy | `UnitCategoryUtils` | `unitCategoryUtils.ts` |
| cost_calculator.dfy | `CostCalculatorUtils` | `costCalculatorUtils.ts` |
| cost_examples.dfy | `CostExamples` | worked cases from the costing tests |
| unit_select.dfy | `UnitSelectUtils` | `unitSelectUtils.ts` lines 1-161 |
| import_check.dfy | `ImportCheck`, `ImportCheckExamples` | `findAllMissingConversionsFromImport` (lines 171-304) |
| history.dfy | `History` | `history.ts` |

Design choices:

- Numbers are exact `real`s, except in `mod` and JavaScript's `%`, which are modelled on integers only.
- Objects used as dictionaries are lists of `(key, value)` entries, so that
  property order (which `Object.values` and `Object.entries` expose) is part
  of the model.
- `getConversionFactor` / `hasConversion` are imported by the core from a
  version of `unit.ts` that is not part of this model. Every operation that
  needs them takes the lookup as a parameter, `resolve: Resolver`, which
  returns `None` where the source throws. Where a property depends on what
  the lookup does, it assumes only the `ValidResolver` facts the tests rely on:
  - a unit converts to itself with factor 1;
  - two standard units of one family always convert.
- `findAllMissingConversionsFromImport` is modelled in two parts:
  - the stream of conversion requests its scan makes (`Requests`);
  - the filing of those requests into the per-ingredient map (`Scan` with
    `AddMissingConversion`, line by line as in the source).

  The filing is proved equal, for every ingredient id, to an independent
  reference (`EntryFor`): the first request's name and the requested pairs
  with repeats and later volume/mass pairs dropped.
- `findMissingConversions` is modelled as a fold of its loop body
  (`FindStep`/`FindAll`). `FindMissingConversions` runs that fold in a loop,
  and its contract gives soundness, completeness and the one-volume/mass-gap
  rule.
- The history manager is an immutable value of the subset type
  `HistoryManager`. That type holds at most 50 entries, with the cursor on an
  entry, or at -1 exactly when there are none. Each call returns the next
  value, and undo/redo also return the snapshot they hand out.
- The code and a test disagree on one point. The test at
  `src/tests/costCalculatorUtils.spec.ts:150-161` expects a failed conversion
  to cost 0. The code of `calculateRecipeCosts` lets `getConversionFactor`
  throw. The model follows the code: the result is an `Err` naming both units
  and the ingredient.

## Model

| member | source | states |
|---|---|---|
| Records.MergeGet | src/lib/utils/costCalculatorUtils.ts:20 | object spread `{...a, ...b}`: a key absent from `b` reads as in `a`; a key of `b` reads as in `b`; the key set is the union |
| RecordFold.AssignAllOk | src/lib/utils/costCalculatorUtils.ts:54-74 | the per-item walk completes exactly when no item throws |
| RecordFold.AssignAllKeys | src/lib/utils/costCalculatorUtils.ts:54-74 | a completed walk has an entry for exactly the keys some item assigned under |
| RecordFold.AssignAllValue | src/lib/utils/costCalculatorUtils.ts:54-74 | the value under a key is the one its last assigning item wrote |
| RecordFold.AssignAllError | src/lib/utils/costCalculatorUtils.ts:54-74 | a walk that throws throws the error of the first throwing item, and no earlier item throws |
| Units.TbsMultiplier | src/lib/utils/unit.ts:9-20 | every unit is worth a positive number of tablespoons |
| Units.ConvertUnit | src/lib/utils/unit.ts:22-25 | the converted amount holds exactly as many tablespoons as the input amount |
| Units.ConvertRoundTrip | src/lib/utils/unit.ts:22-25 | converting to another unit and back returns the original amount |
| Units.ConvertCompose | src/lib/utils/unit.ts:22-25 | converting x to y and then y to z equals converting x to z directly |
| Units.ConvertLinear | src/lib/utils/unit.ts:22-25 | conversion is linear in the amount |
| Units.ConvertCupToTbs | src/lib/utils/unit.ts:15 | one cup is sixteen tablespoons |
| Units.ConvertTbsToCup | src/lib/utils/unit.ts:15 | sixteen tablespoons are one cup |
| Units.ConvertOzToTbs | src/lib/utils/unit.ts:12 | one ounce is half a tablespoon in this table |
| MathUtils.Clamp | src/lib/utils/math.ts:1-2 | with `min <= max` the result lies in `[min, max]`, equals `value` inside the range and the nearer bound outside it; with `max < min` it is `min` |
| MathUtils.JsRem | src/lib/utils/math.ts:5 | JavaScript's `%` (truncating division): the dividend minus the result is a multiple of the divisor, the result is smaller in magnitude than the divisor, and it is never of the opposite sign to the dividend |
| MathUtils.Mod | src/lib/utils/math.ts:4-6 | the result is congruent to n modulo m; for a positive modulus it is the Euclidean remainder in `[0, m)`, and for a negative one it lies in `(m, 0]` |
| MathUtils.GetDifferenceStringArrays | src/lib/utils/math.ts:8-18 | an element is in the result exactly when it is in one array but not the other; the result is A's elements missing from B in A's order, each as often as in A, then B's missing from A in B's order, each as often as in B |
| MathUtils.DifferenceOfIdentical | src/lib/utils/math.ts:8-18 | an array's difference with itself is empty |
| MathUtils.HaveMutual | src/lib/utils/math.ts:20-26 | true exactly when some element of `b` occurs in `a`; false when either is empty |
| UnitCategoryUtils.GetUnitCategory | src/lib/utils/unitCategoryUtils.ts:8-12 | Volume exactly for the volume units, Mass exactly for the mass units, Custom for every other string |
| UnitCategoryUtils.GetUnitsByCategory | src/lib/utils/unitCategoryUtils.ts:17-29 | Volume gives the 8 volume units in order, Mass the 2 mass units, each classified back into its category; Custom gives the custom table's entries in order, labels included |
| UnitCategoryUtils.VolumeOptionsExactly | src/tests/unitCategoryUtils.spec.ts:79-96 | the Volume options are exactly pint, cup, tbs, oz, tsp, can, ml and litre with their labels |
| UnitCategoryUtils.MassOptionsExactly | src/tests/unitCategoryUtils.spec.ts:98-111 | the Mass options are exactly g and kg with their labels |
| UnitCategoryUtils.CategoryExamples | src/tests/unitCategoryUtils.spec.ts:6-45 | the tests' classifications, including the empty string as Custom |
| CostCalculatorUtils.CalculateRecipeCosts | src/lib/utils/costCalculatorUtils.ts:47-77 | succeeds exactly when no line's lookup fails; the result has distinct keys |
| CostCalculatorUtils.RecipeCostKeys | src/lib/utils/costCalculatorUtils.ts:54-74 | the result has an entry for exactly the ids of visible lines found in the cost table |
| CostCalculatorUtils.RecipeCostValue | src/lib/utils/costCalculatorUtils.ts:63-73 | the entry for a priced line's id is `product.cost * factor * portion.amount / product.amount` of the last priced line with that id |
| CostCalculatorUtils.RecipeCostError | src/lib/utils/costCalculatorUtils.ts:63-69 | a failing call reports the first priced line whose lookup fails |
| CostCalculatorUtils.GetTotalRecipeCost | src/lib/utils/costCalculatorUtils.ts:82-84 | an empty record totals 0, and a one-entry record totals its value |
| CostCalculatorUtils.TotalAfterSet | src/lib/utils/costCalculatorUtils.ts:82-84 | assigning `k := v` changes the total by `v` minus the value it replaces |
| CostCalculatorUtils.TotalIsSumOfLines | src/lib/utils/costCalculatorUtils.ts:47-84 | when no id is priced twice, the recipe total equals the sum of the priced lines' costs computed line by line |
| CostCalculatorUtils.CompoundsToIngredients | src/lib/utils/costCalculatorUtils.ts:23-42 | succeeds exactly when every compound's costing succeeds; the result has distinct keys |
| CostCalculatorUtils.CompoundKeys | src/lib/utils/costCalculatorUtils.ts:28-41 | the result has an entry for exactly the compounds' ids |
| CostCalculatorUtils.CompoundValue | src/lib/utils/costCalculatorUtils.ts:29-37 | a compound's entry is derived from it and its production cost, priced against the base costs only; the last compound with an id wins |
| CostCalculatorUtils.CompoundError | src/lib/utils/costCalculatorUtils.ts:28-41 | a failing call reports the error of the first compound whose costing fails |
| CostCalculatorUtils.GetAllCosts | src/lib/utils/costCalculatorUtils.ts:15-21 | fails exactly when the compound conversion fails; otherwise every id reads as its compound-derived entry if there is one, else as its base entry |
| CostCalculatorUtils.GetAvailableIngredients | src/lib/utils/costCalculatorUtils.ts:89-93 | the cost entries, in order and with their multiplicity, whose id no line of the recipe names, and no others |
| CostCalculatorUtils.GetRecipesUsingIngredient | src/lib/utils/costCalculatorUtils.ts:98-105 | the recipes, in order and with their multiplicity, having a line for the id, and no others |
| CostCalculatorUtils.RemoveIngredientFromAllRecipes | src/lib/utils/costCalculatorUtils.ts:110-126 | same keys in the same order; each recipe keeps its id and name, and keeps in order exactly its lines for other ids, with their multiplicities |
| CostExamples.SingleLine | src/tests/costCalculatorUtils.spec.ts:68-79 | 500 g of flour at 100 per 1000 g costs 50 |
| CostExamples.SkippedLines | src/tests/costCalculatorUtils.spec.ts:100-131 | hidden lines and unknown ids leave no entry |
| CostExamples.NoPathThrows | src/lib/utils/costCalculatorUtils.ts:63-69 | a line with no conversion path makes the call fail, naming both units and the ingredient |
| CostExamples.DoughLines | src/tests/costCalculatorUtils.spec.ts:81-98 | two lines in grams are priced independently |
| CostExamples.DoughCost | src/lib/utils/costCalculatorUtils.ts:29-32 | a compound's production cost is the sum of its line costs |
| CostExamples.DoughCompound | src/tests/costCalculatorUtils.spec.ts:185-205 | the compound becomes an ingredient whose 500 g package costs 38 |
| UnitSelectUtils.StandardLabelsLookup | src/lib/utils/unitSelectUtils.ts:25-29 | the standard table reads the mass label for mass units and the volume label for volume units, and has no other keys |
| UnitSelectUtils.BuildUnitLabels | src/lib/utils/unitSelectUtils.ts:22-30 | a custom label wins for its key; every other key reads its standard label; the keys are the standard units plus the custom ones |
| UnitSelectUtils.BuildUnitLabelsExtends | src/tests/unitSelectUtils.spec.ts:61-80 | custom labels are added next to the standard ones |
| UnitSelectUtils.BuildUnitLabelsOverride | src/tests/unitSelectUtils.spec.ts:89-98 | a custom label replaces the standard label of the same unit |
| UnitSelectUtils.LookupOptions | src/lib/utils/unitSelectUtils.ts:36-44 | mapping a label table's key list through the table gives back the table's entries |
| UnitSelectUtils.BuildUnitGroups | src/lib/utils/unitSelectUtils.ts:35-56 | exactly three groups, Volume, Mass and Custom, each holding the options `getUnitsByCategory` gives for that category |
| UnitSelectUtils.GetRecipesUsingIngredientWithUnit | src/lib/utils/unitSelectUtils.ts:81-92 | the recipes, in order and with their multiplicity, having a visible line for the id in the unit, and no others |
| UnitSelectUtils.GetPortionUnitsForIngredient | src/lib/utils/unitSelectUtils.ts:61-76 | the units of visible lines for the id, each once, in order of first use, as `Array.from(new Set(...))` gives them; a unit is listed exactly when `getRecipesUsingIngredientWithUnit` finds a recipe for it |
| UnitSelectUtils.UnitStreamMembers | src/lib/utils/unitSelectUtils.ts:66-75 | a unit occurs in the visible-line unit stream for the id exactly when some recipe has a visible line for the id in that unit |
| UnitSelectUtils.GetUnitType | src/lib/utils/unitSelectUtils.ts:97-101 | 'volume' exactly for volume units, 'mass' exactly for mass units, 'custom' otherwise |
| UnitSelectUtils.UnitTypeMatchesCategory | src/lib/utils/unitSelectUtils.ts:97-101 | `getUnitType` and `getUnitCategory` classify every string alike |
| UnitSelectUtils.CrossPairMeansVolumeAndMass | src/lib/utils/unitSelectUtils.ts:140 | a cross-type pair is exactly one volume unit and one mass unit |
| UnitSelectUtils.FindAllSound | src/lib/utils/unitSelectUtils.ts:131-158 | every reported entry goes from a listed unit to the target, and lacks a conversion |
| UnitSelectUtils.FindAllShape | src/lib/utils/unitSelectUtils.ts:139-151 | the remembered type pair is present exactly when a volume/mass gap was reported, which happens exactly when one was met |
| UnitSelectUtils.FindAllOneCross | src/lib/utils/unitSelectUtils.ts:139-151 | at most one volume/mass conversion is reported |
| UnitSelectUtils.FindAllComplete | src/lib/utils/unitSelectUtils.ts:132-156 | every gap that is not volume/mass is reported |
| UnitSelectUtils.FindAllFirstCross | src/lib/utils/unitSelectUtils.ts:139-156 | the first volume/mass gap in list order is the one reported |
| UnitSelectUtils.FindAllOrder | src/lib/utils/unitSelectUtils.ts:131-158 | reports follow the order of the portion units |
| UnitSelectUtils.FindAllCount | src/lib/utils/unitSelectUtils.ts:131-158 | a gap that is not volume/mass is reported once for each occurrence of its unit |
| UnitSelectUtils.FindMissingConversions | src/lib/utils/unitSelectUtils.ts:111-161 | sound, complete for non-cross gaps, at most one volume/mass gap, and that one the first met; reports in portion-unit order, each non-cross gap once per occurrence |
| UnitSelectUtils.FindSameFamilyExample | src/tests/unitSelectUtils.spec.ts:241-251 | two units of one family report nothing |
| UnitSelectUtils.FindCrossDedupExample | src/tests/unitSelectUtils.spec.ts:266-279 | cups, tablespoons and ounces missing a path to grams report only cups to grams |
| ImportCheck.CrossKeyInjective | src/lib/utils/unitSelectUtils.ts:207-219 | `id:fromType:toType` keys of different ingredients or type orders never collide, whatever the ids hold |
| ImportCheck.ScanMatchesEntries | src/lib/utils/unitSelectUtils.ts:196-237 | filing the requests one by one leaves every id with exactly its reference entry, and a volume/mass key exactly when that entry holds a volume/mass pair |
| ImportCheck.DedupShape | src/lib/utils/unitSelectUtils.ts:207-236 | the de-duplicated pairs were requested, none twice, at most one volume/mass, and one is kept exactly when one was requested |
| ImportCheck.FindAllMissingConversionsFromImport | src/lib/utils/unitSelectUtils.ts:171-304 | distinct keys in order of each id's first request, and every id's entry equals the reference entry of the scan's requests |
| ImportCheck.ScanKeys | src/lib/utils/unitSelectUtils.ts:183-236 | the filed ids are the requested ids, each once, in order of first request, as the `Map` keeps insertion order |
| ImportCheck.EntryForExists | src/lib/utils/unitSelectUtils.ts:226-236 | an id has an entry exactly when something was requested for it, and the entry carries the earliest request's name |
| ImportCheck.EntryPairsSound | src/lib/utils/unitSelectUtils.ts:207-236 | an entry's pairs were all requested for that id, none twice, at most one volume/mass |
| ImportCheck.EntryPairsComplete | src/lib/utils/unitSelectUtils.ts:207-236 | every non-cross pair requested for the id is listed, and so is the first volume/mass pair |
| ImportCheck.ImportEmpty | src/lib/utils/unitSelectUtils.ts:171-304 | the map is empty exactly when the scan made no request |
| ImportCheck.RequestOrigin | src/lib/utils/unitSelectUtils.ts:241-301 | a request is in the stream exactly when one of three places makes it: a visible recipe line (base unit first, compound yield second), a compound's yield against its viewed unit, or a visible compound line for a base ingredient |
| ImportCheck.RequestsAreGaps | src/lib/utils/unitSelectUtils.ts:263-268 | every request is for two different units with no path; under the standard lookup never for two units of one family |
| ImportCheckExamples.CrossDedupPerIngredient | src/tests/unitSelectUtils.spec.ts:421-445 | flour in cups and in tablespoons, priced in grams, yields one volume-to-mass request under the name Flour |
| History.CanUndo | src/lib/utils/history.ts:80-82 | true exactly when `getUndoState` would hand out a snapshot |
| History.CanRedo | src/lib/utils/history.ts:87-89 | true exactly when `getRedoState` would hand out a snapshot |
| History.SaveState | src/lib/utils/history.ts:37-53 | the new snapshot is last and current, with nothing to redo; the entries up to the cursor are kept, and the oldest is dropped when that would make 51 |
| History.GetUndoState | src/lib/utils/history.ts:58-64 | the stored list is untouched; at the start nothing changes and `null` comes back; otherwise the cursor steps back and hands out the entry it lands on |
| History.GetRedoState | src/lib/utils/history.ts:69-75 | the stored list is untouched; at the end nothing changes and `null` comes back; otherwise the cursor steps forward and hands out the entry it lands on |
| History.Initialize | src/lib/utils/history.ts:94-97 | one entry, current; neither undo nor redo is possible |
| History.Clear | src/lib/utils/history.ts:102-105 | no entries, cursor -1; neither undo nor redo is possible |
| History.UndoThenRedo | src/lib/utils/history.ts:58-75 | a redo undoes an undo and hands out the snapshot that was current before it |
| History.RedoThenUndo | src/lib/utils/history.ts:58-75 | an undo undoes a redo and hands out the snapshot that was current before it |
| History.NavigateKeepsEntries | src/lib/utils/history.ts:58-75 | no sequence of undos and redos changes the stored list |
| History.SaveAllKeepsNewest | src/lib/utils/history.ts:37-53 | saving a run of states from the newest entry keeps the 50 most recent snapshots in order, with the cursor on the newest |
| History.SaveCapExample | src/tests/history.spec.ts:180-190 | an initial state and 55 saves leave 50 entries |
| History.TrimAfterUndoExample | src/tests/history.spec.ts:159-178 | saving after two undos drops the two undone entries |

## Left out

- `getConversionFactor` / `hasConversion` / `volumeUnits` / `massUnits` / the label tables: the core imports them from a version of `src/lib/utils/unit.ts` that is not part of this model. The lookup is a parameter, constrained only by `ValidResolver` where a property needs it. The unit lists and labels are taken from the tests' expectations, in their order.
- The graph search inside `getConversionFactor`, `parseFraction` and the conversion factors between units of one family are not part of this model.
- Floating-point rounding: numbers are exact reals, so the properties hold for the mathematics the code intends, not for IEEE doubles.
- CostCalculatorUtils.Ratio: dividing by a zero product amount gives 0, where JavaScript gives Infinity or NaN, which no real stands for.
- MathUtils.Mod: integers only; `mod` also accepts fractions (`mod(5.5, 2)` is 1.5), which are not modelled because the tests exercise integers. It requires a non-zero modulus; JavaScript returns NaN for `m = 0`.
- MathUtils.JsRem: integers only; JavaScript's `%` on fractions is not modelled, for the same reason.
- MathUtils.Clamp: a NaN argument, which has no real counterpart.
- JavaScript object key order puts integer-like keys first and treats prototype keys specially. Records here keep plain insertion order.
- CostCalculatorUtils.Derived: the spread `...compound` in `compoundsToIngredients` also copies the compound's `ingredients`, `yield` and `viewedUnit` onto the derived ingredient. The model keeps only the `IngredientDoc` fields, which are all the costing reads.
- `console.warn` for a recipe line naming an unknown id (the line is skipped; the warning is output only).
- History: the deep clone (`cloneState`) is the identity, because snapshots are values. The module-level singleton is an explicit value threaded through calls. Manager states outside `HistoryManager` (for example a cursor past the end) cannot arise from the class's methods and are not modelled. The test accessors `getHistoryLength`/`getCurrentIndex` are the fields `entries` and `currentIndex`.
- ImportCheck.FindAllMissingConversionsFromImport: the source returns a JavaScript `Map`. The model returns a Record with the same keys in the same insertion order (ScanKeys).
- The Svelte contexts, local storage, colours, drag controls and mock data are outside the calculation core.
