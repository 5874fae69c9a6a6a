/** The recipe-costing engine (src/lib/utils/costCalculatorUtils.ts). */
module CostCalculatorUtils {
  import opened Wrappers
  import opened Seqs
  import opened Records
  import opened Schema
  import opened Units
  import opened RecordFold

  /** The error `getConversionFactor` throws when no path links two units. */
  datatype ConversionError = NoConversionPath(inputUnit: string, outputUnit: string, ingredientId: string)

  /** `a / b`.  Where the source divides by a zero package amount it gets
      Infinity or NaN, which no real number stands for; the model takes 0. */
  function Ratio(a: real, b: real): real {
    if b == 0.0 then 0.0 else a / b
  }

  // ---------------------------------------------------------------------
  // Pricing one line
  // ---------------------------------------------------------------------

  /** A line the engine prices: visible, and its id is in the cost table. */
  predicate Priced(line: IngredientLine, costs: Record<IngredientDoc>) {
    !line.hidden && Get(costs, line.id).Some?
  }

  /** The conversion lookup for a priced line: portion unit to product unit. */
  function LineFactor(line: IngredientLine, costs: Record<IngredientDoc>, conversions: seq<UnitConversion>,
                      resolve: Resolver): Option<real>
    requires Priced(line, costs)
  {
    resolve(line.portion.unit, Get(costs, line.id).value.product.unit, line.id, conversions)
  }

  /** A priced line whose conversion lookup throws. */
  predicate LookupFails(line: IngredientLine, costs: Record<IngredientDoc>, conversions: seq<UnitConversion>,
                        resolve: Resolver) {
    Priced(line, costs) && LineFactor(line, costs, conversions, resolve).None?
  }

  /** `product.cost * (factor * portion.amount / product.amount)`. */
  function LinePrice(line: IngredientLine, costs: Record<IngredientDoc>, conversions: seq<UnitConversion>,
                     resolve: Resolver): real
    requires Priced(line, costs) && !LookupFails(line, costs, conversions, resolve)
  {
    var product := Get(costs, line.id).value.product;
    var factor := LineFactor(line, costs, conversions, resolve).value;
    product.cost * Ratio(factor * line.portion.amount, product.amount)
  }

  /** The error reported for a line whose lookup fails. */
  function LineError(line: IngredientLine, costs: Record<IngredientDoc>): ConversionError
    requires Priced(line, costs)
  {
    NoConversionPath(line.portion.unit, Get(costs, line.id).value.product.unit, line.id)
  }

  /** What the `forEach` body does with one line: skip it, throw, or write
      its price. */
  function LineOutcome(line: IngredientLine, costs: Record<IngredientDoc>, conversions: seq<UnitConversion>,
                       resolve: Resolver): (o: Outcome<real, ConversionError>)
    ensures o.None? <==> !Priced(line, costs)
    ensures Throws(o) <==> LookupFails(line, costs, conversions, resolve)
    ensures Throws(o) ==> o.value.error == LineError(line, costs)
    ensures Writes(o) ==> o.value.value == LinePrice(line, costs, conversions, resolve)
  {
    if !Priced(line, costs) then None
    else if LookupFails(line, costs, conversions, resolve) then Some(Err(LineError(line, costs)))
    else Some(Ok(LinePrice(line, costs, conversions, resolve)))
  }

  function LineOutcomes(costs: Record<IngredientDoc>, conversions: seq<UnitConversion>, resolve: Resolver)
    : IngredientLine -> Outcome<real, ConversionError>
  {
    line => LineOutcome(line, costs, conversions, resolve)
  }

  function LineKey(line: IngredientLine): string {
    line.id
  }

  /** No later priced line of `lines` has the id of `lines[i]`. */
  predicate LastPricedWithId(lines: seq<IngredientLine>, i: int, costs: Record<IngredientDoc>)
    requires 0 <= i < |lines|
  {
    forall j :: i < j < |lines| ==> !(Priced(lines[j], costs) && lines[j].id == lines[i].id)
  }

  // ---------------------------------------------------------------------
  // calculateRecipeCosts / getTotalRecipeCost
  // ---------------------------------------------------------------------

  /** `calculateRecipeCosts`: the lines in order; hidden lines and ids missing
      from `costs` are skipped, the first failing lookup throws, and a priced
      line writes its cost under its id.  `RecipeCostKeys`, `RecipeCostValue`
      and `RecipeCostError` state which entries, which values and which
      error. */
  function CalculateRecipeCosts(recipe: RecipeDoc, costs: Record<IngredientDoc>, conversions: seq<UnitConversion>,
                                resolve: Resolver): (r: Result<Record<real>, ConversionError>)
    ensures r.Ok? <==> forall i :: 0 <= i < |recipe.ingredients| ==>
                         !LookupFails(recipe.ingredients[i], costs, conversions, resolve)
    ensures r.Ok? ==> KeysDistinct(r.value)
  {
    AssignAllOk(recipe.ingredients, LineKey, LineOutcomes(costs, conversions, resolve));
    AssignAll(recipe.ingredients, LineKey, LineOutcomes(costs, conversions, resolve))
  }

  /** The result has an entry for exactly the ids of the priced lines. */
  lemma RecipeCostKeys(recipe: RecipeDoc, costs: Record<IngredientDoc>, conversions: seq<UnitConversion>,
                       resolve: Resolver, k: string)
    requires CalculateRecipeCosts(recipe, costs, conversions, resolve).Ok?
    ensures Get(CalculateRecipeCosts(recipe, costs, conversions, resolve).value, k).Some? <==>
            exists i :: 0 <= i < |recipe.ingredients| && recipe.ingredients[i].id == k &&
                        Priced(recipe.ingredients[i], costs)
  {
    var lines := recipe.ingredients;
    var outcome := LineOutcomes(costs, conversions, resolve);
    AssignAllKeys(lines, LineKey, outcome, k);
    assert forall i :: 0 <= i < |lines| ==> (Writes(outcome(lines[i])) <==> Priced(lines[i], costs));
  }

  /** Of several priced lines with one id the last one wins: the entry for a
      priced line's id is that line's price when no later priced line shares
      the id. */
  lemma RecipeCostValue(recipe: RecipeDoc, costs: Record<IngredientDoc>, conversions: seq<UnitConversion>,
                        resolve: Resolver, i: nat)
    requires CalculateRecipeCosts(recipe, costs, conversions, resolve).Ok?
    requires i < |recipe.ingredients| && Priced(recipe.ingredients[i], costs)
    requires LastPricedWithId(recipe.ingredients, i, costs)
    ensures Get(CalculateRecipeCosts(recipe, costs, conversions, resolve).value, recipe.ingredients[i].id) ==
            Some(LinePrice(recipe.ingredients[i], costs, conversions, resolve))
  {
    var lines := recipe.ingredients;
    var outcome := LineOutcomes(costs, conversions, resolve);
    assert LastWriter(lines, LineKey, outcome, i) by {
      forall j | i < j < |lines|
        ensures !(Writes(outcome(lines[j])) && LineKey(lines[j]) == LineKey(lines[i]))
      {
        assert !(Priced(lines[j], costs) && lines[j].id == lines[i].id);
      }
    }
    AssignAllValue(lines, LineKey, outcome, i);
  }

  /** A failing call reports the first priced line whose lookup fails, with
      that line's portion unit, product unit and id. */
  lemma RecipeCostError(recipe: RecipeDoc, costs: Record<IngredientDoc>, conversions: seq<UnitConversion>,
                        resolve: Resolver)
    returns (i: nat)
    requires CalculateRecipeCosts(recipe, costs, conversions, resolve).Err?
    ensures i < |recipe.ingredients|
    ensures LookupFails(recipe.ingredients[i], costs, conversions, resolve)
    ensures forall j :: 0 <= j < i ==> !LookupFails(recipe.ingredients[j], costs, conversions, resolve)
    ensures CalculateRecipeCosts(recipe, costs, conversions, resolve).error == LineError(recipe.ingredients[i], costs)
  {
    var lines := recipe.ingredients;
    var outcome := LineOutcomes(costs, conversions, resolve);
    i := AssignAllError(lines, LineKey, outcome);
    assert forall j :: 0 <= j < i ==> !Throws(outcome(lines[j]));
  }

  /** Left-to-right sum, as `reduce((total, cost) => total + cost, 0)`. */
  function Sum(s: seq<real>): real {
    if s == [] then 0.0 else Sum(s[..|s| - 1]) + s[|s| - 1]
  }

  /** `getTotalRecipeCost`: the sum of the record's values; `TotalAfterSet`
      says how an assignment changes it. */
  function GetTotalRecipeCost(recipeCosts: Record<real>): (total: real)
    ensures recipeCosts == [] ==> total == 0.0
    ensures |recipeCosts| == 1 ==> total == recipeCosts[0].1
  {
    var vs := Values(recipeCosts);
    assert |vs| == 1 ==> vs[..0] == [] && Sum(vs) == Sum(vs[..0]) + vs[0] == recipeCosts[0].1;
    Sum(vs)
  }

  lemma {:induction false} SumUpdate(s: seq<real>, i: int, v: real)
    requires 0 <= i < |s|
    ensures Sum(s[i := v]) == Sum(s) - s[i] + v
    decreases |s|
  {
    var n := |s| - 1;
    assert s[i := v][..n] == if i < n then s[..n][i := v] else s[..n];
    if i < n {
      SumUpdate(s[..n], i, v);
    }
  }

  /** Writing `k := v` changes the total by `v` minus the value it replaces. */
  lemma {:induction false} TotalAfterSet(m: Record<real>, k: string, v: real)
    requires KeysDistinct(m)
    ensures GetTotalRecipeCost(Set(m, k, v)) ==
            GetTotalRecipeCost(m) - (if Get(m, k).Some? then Get(m, k).value else 0.0) + v
  {
    var i := IndexOf(m, k);
    var vs := Values(m);
    if i < 0 {
      assert Set(m, k, v) == m + [(k, v)];
      assert Values(Set(m, k, v)) == vs + [v];
      assert (vs + [v])[..|m|] == vs;
    } else {
      assert Set(m, k, v) == m[i := (k, v)];
      assert Get(m, k) == Some(m[i].1);
      assert Values(Set(m, k, v)) == vs[i := v];
      SumUpdate(vs, i, v);
    }
  }

  /** The costs of the priced lines, added up line by line. */
  function LinesTotal(lines: seq<IngredientLine>, costs: Record<IngredientDoc>, conversions: seq<UnitConversion>,
                      resolve: Resolver): real
    requires forall i :: 0 <= i < |lines| ==> !LookupFails(lines[i], costs, conversions, resolve)
  {
    if lines == [] then 0.0
    else
      var n := |lines| - 1;
      LinesTotal(lines[..n], costs, conversions, resolve) +
      (if Priced(lines[n], costs) then LinePrice(lines[n], costs, conversions, resolve) else 0.0)
  }

  /** No two priced lines share an id. */
  predicate PricedIdsDistinct(lines: seq<IngredientLine>, costs: Record<IngredientDoc>) {
    forall i, j :: 0 <= i < j < |lines| && Priced(lines[i], costs) && Priced(lines[j], costs) ==>
      lines[i].id != lines[j].id
  }

  /** When no id is priced twice, the recipe total is the sum of its priced
      lines' costs; an empty or all-hidden recipe totals 0. */
  lemma {:induction false} TotalIsSumOfLines(recipe: RecipeDoc, costs: Record<IngredientDoc>,
                                             conversions: seq<UnitConversion>, resolve: Resolver)
    requires CalculateRecipeCosts(recipe, costs, conversions, resolve).Ok?
    requires PricedIdsDistinct(recipe.ingredients, costs)
    ensures GetTotalRecipeCost(CalculateRecipeCosts(recipe, costs, conversions, resolve).value) ==
            LinesTotal(recipe.ingredients, costs, conversions, resolve)
    decreases |recipe.ingredients|
  {
    var lines := recipe.ingredients;
    if lines != [] {
      var n := |lines| - 1;
      var prefix := recipe.(ingredients := lines[..n]);
      var outcome := LineOutcomes(costs, conversions, resolve);
      AssignStep(lines, LineKey, outcome);
      var acc := CalculateRecipeCosts(prefix, costs, conversions, resolve).value;
      TotalIsSumOfLines(prefix, costs, conversions, resolve);
      if Priced(lines[n], costs) {
        forall i | 0 <= i < n && Priced(lines[..n][i], costs)
          ensures lines[..n][i].id != lines[n].id
        {
          assert lines[..n][i] == lines[i];
        }
        RecipeCostKeys(prefix, costs, conversions, resolve, lines[n].id);
        TotalAfterSet(acc, lines[n].id, LinePrice(lines[n], costs, conversions, resolve));
      }
    }
  }

  // ---------------------------------------------------------------------
  // compoundsToIngredients / getAllCosts
  // ---------------------------------------------------------------------

  /** The ingredient a compound becomes: the compound's own fields, with the
      product `{cost: total, amount: yield.amount, unit: yield.unit}`. */
  function Derived(c: CompoundIngredientDoc, total: real): IngredientDoc {
    IngredientDoc(c.id, c.name, c.category, Product(total, c.yieldPortion.amount, c.yieldPortion.unit), c.color)
  }

  /** The production cost of a compound: its own recipe priced against the
      base `costs` only. */
  function CompoundCost(c: CompoundIngredientDoc, costs: Record<IngredientDoc>, conversions: seq<UnitConversion>,
                        resolve: Resolver): Result<real, ConversionError>
  {
    var lineCosts :- CalculateRecipeCosts(c.AsRecipe(), costs, conversions, resolve);
    Ok(GetTotalRecipeCost(lineCosts))
  }

  /** What the `reduce` callback does with one compound: throw, or write its
      derived ingredient. */
  function CompoundOutcome(c: CompoundIngredientDoc, costs: Record<IngredientDoc>, conversions: seq<UnitConversion>,
                           resolve: Resolver): (o: Outcome<IngredientDoc, ConversionError>)
    ensures o.Some?
    ensures Throws(o) <==> CompoundCost(c, costs, conversions, resolve).Err?
    ensures Throws(o) ==> o.value.error == CompoundCost(c, costs, conversions, resolve).error
    ensures Writes(o) ==> o.value.value == Derived(c, CompoundCost(c, costs, conversions, resolve).value)
  {
    match CompoundCost(c, costs, conversions, resolve)
    case Err(e) => Some(Err(e))
    case Ok(total) => Some(Ok(Derived(c, total)))
  }

  function CompoundOutcomes(costs: Record<IngredientDoc>, conversions: seq<UnitConversion>, resolve: Resolver)
    : CompoundIngredientDoc -> Outcome<IngredientDoc, ConversionError>
  {
    c => CompoundOutcome(c, costs, conversions, resolve)
  }

  function CompoundKey(c: CompoundIngredientDoc): string {
    c.id
  }

  /** No later compound of `compounds` has the id of `compounds[i]`. */
  predicate LastCompoundWithId(compounds: Record<CompoundIngredientDoc>, i: int)
    requires 0 <= i < |compounds|
  {
    forall j :: i < j < |compounds| ==> compounds[j].1.id != compounds[i].1.id
  }

  /** `compoundsToIngredients`: one entry per compound value, keyed by the
      compound's `id`, in order; the first compound whose costing throws makes
      the whole call throw.  `CompoundKeys`, `CompoundValue` and
      `CompoundError` state which entries, which values and which error. */
  function CompoundsToIngredients(compounds: Record<CompoundIngredientDoc>, costs: Record<IngredientDoc>,
                                  conversions: seq<UnitConversion>, resolve: Resolver)
    : (r: Result<Record<IngredientDoc>, ConversionError>)
    ensures r.Ok? <==> forall i :: 0 <= i < |compounds| ==>
                         CompoundCost(compounds[i].1, costs, conversions, resolve).Ok?
    ensures r.Ok? ==> KeysDistinct(r.value)
  {
    var outcome := CompoundOutcomes(costs, conversions, resolve);
    AssignAllOk(Values(compounds), CompoundKey, outcome);
    AssignAll(Values(compounds), CompoundKey, outcome)
  }

  /** The result has an entry for exactly the compounds' ids. */
  lemma CompoundKeys(compounds: Record<CompoundIngredientDoc>, costs: Record<IngredientDoc>,
                     conversions: seq<UnitConversion>, resolve: Resolver, k: string)
    requires CompoundsToIngredients(compounds, costs, conversions, resolve).Ok?
    ensures Get(CompoundsToIngredients(compounds, costs, conversions, resolve).value, k).Some? <==>
            exists i :: 0 <= i < |compounds| && compounds[i].1.id == k
  {
    var items := Values(compounds);
    var outcome := CompoundOutcomes(costs, conversions, resolve);
    AssignAllKeys(items, CompoundKey, outcome, k);
    assert forall i :: 0 <= i < |items| ==> Writes(outcome(items[i]));
  }

  /** A compound's entry is derived from it and its production cost, the last
      compound with a given id winning. */
  lemma CompoundValue(compounds: Record<CompoundIngredientDoc>, costs: Record<IngredientDoc>,
                      conversions: seq<UnitConversion>, resolve: Resolver, i: nat)
    requires CompoundsToIngredients(compounds, costs, conversions, resolve).Ok?
    requires i < |compounds| && LastCompoundWithId(compounds, i)
    ensures CompoundCost(compounds[i].1, costs, conversions, resolve).Ok?
    ensures Get(CompoundsToIngredients(compounds, costs, conversions, resolve).value, compounds[i].1.id) ==
            Some(Derived(compounds[i].1, CompoundCost(compounds[i].1, costs, conversions, resolve).value))
  {
    var items := Values(compounds);
    var outcome := CompoundOutcomes(costs, conversions, resolve);
    assert LastWriter(items, CompoundKey, outcome, i) by {
      forall j | i < j < |items|
        ensures !(Writes(outcome(items[j])) && CompoundKey(items[j]) == CompoundKey(items[i]))
      {
        assert compounds[j].1.id != compounds[i].1.id;
      }
    }
    AssignAllValue(items, CompoundKey, outcome, i);
  }

  /** A failing call reports the error of the first compound whose costing
      fails. */
  lemma CompoundError(compounds: Record<CompoundIngredientDoc>, costs: Record<IngredientDoc>,
                      conversions: seq<UnitConversion>, resolve: Resolver)
    returns (i: nat)
    requires CompoundsToIngredients(compounds, costs, conversions, resolve).Err?
    ensures i < |compounds|
    ensures CompoundCost(compounds[i].1, costs, conversions, resolve).Err?
    ensures forall j :: 0 <= j < i ==> CompoundCost(compounds[j].1, costs, conversions, resolve).Ok?
    ensures CompoundsToIngredients(compounds, costs, conversions, resolve).error ==
            CompoundCost(compounds[i].1, costs, conversions, resolve).error
  {
    var items := Values(compounds);
    var outcome := CompoundOutcomes(costs, conversions, resolve);
    i := AssignAllError(items, CompoundKey, outcome);
    assert forall j :: 0 <= j < i ==> !Throws(outcome(items[j]));
  }

  /** The entry for `k` in `derived`, else the one in `costs`. */
  function OverrideGet(derived: Record<IngredientDoc>, costs: Record<IngredientDoc>, k: string): Option<IngredientDoc> {
    if Get(derived, k).Some? then Get(derived, k) else Get(costs, k)
  }

  /** `getAllCosts`: `{...costs, ...compoundsToIngredients(...)}`; on an id
      collision the compound-derived entry wins. */
  function GetAllCosts(costs: Record<IngredientDoc>, compounds: Record<CompoundIngredientDoc>,
                       conversions: seq<UnitConversion>, resolve: Resolver)
    : (r: Result<Record<IngredientDoc>, ConversionError>)
    ensures r.Ok? <==> CompoundsToIngredients(compounds, costs, conversions, resolve).Ok?
    ensures r.Err? ==> r.error == CompoundsToIngredients(compounds, costs, conversions, resolve).error
    ensures r.Ok? ==> forall k :: Get(r.value, k) == OverrideGet(
                        CompoundsToIngredients(compounds, costs, conversions, resolve).value, costs, k)
    ensures r.Ok? && KeysDistinct(costs) ==> KeysDistinct(r.value)
  {
    var derived :- CompoundsToIngredients(compounds, costs, conversions, resolve);
    assert forall k :: Get(Merge(costs, derived), k) == OverrideGet(derived, costs, k) by {
      forall k
        ensures Get(Merge(costs, derived), k) == OverrideGet(derived, costs, k)
      {
        MergeGet(costs, derived, k);
      }
    }
    Ok(Merge(costs, derived))
  }

  // ---------------------------------------------------------------------
  // Collection queries
  // ---------------------------------------------------------------------

  /** Some line of the recipe, hidden or not, names `id`. */
  predicate UsesIngredient(recipe: RecipeDoc, id: string) {
    exists i :: 0 <= i < |recipe.ingredients| && recipe.ingredients[i].id == id
  }

  /** `getAvailableIngredients`: the cost entries, in order, whose id no line
      of the recipe names. */
  function GetAvailableIngredients(recipe: RecipeDoc, costs: Record<IngredientDoc>): (r: seq<IngredientDoc>)
    ensures forall d :: d in r <==> d in Values(costs) && !UsesIngredient(recipe, d.id)
    ensures forall d: IngredientDoc :: !UsesIngredient(recipe, d.id) ==> multiset(r)[d] == multiset(Values(costs))[d]
    ensures IsSubsequence(r, Values(costs))
  {
    Filter(Values(costs), (d: IngredientDoc) => !UsesIngredient(recipe, d.id))
  }

  /** `getRecipesUsingIngredient`: the recipes, in order, with a line for `id`. */
  function GetRecipesUsingIngredient(id: string, recipes: Record<RecipeDoc>): (r: seq<RecipeDoc>)
    ensures forall rec :: rec in r <==> rec in Values(recipes) && UsesIngredient(rec, id)
    ensures forall rec: RecipeDoc :: UsesIngredient(rec, id) ==> multiset(r)[rec] == multiset(Values(recipes))[rec]
    ensures IsSubsequence(r, Values(recipes))
  {
    Filter(Values(recipes), (rec: RecipeDoc) => UsesIngredient(rec, id))
  }

  /** `removeIngredientFromAllRecipes`: a new table with the same keys in the
      same order, each recipe keeping its other fields and, in order, exactly
      its lines for other ids. */
  function RemoveIngredientFromAllRecipes(id: string, recipes: Record<RecipeDoc>): (r: Record<RecipeDoc>)
    ensures Keys(r) == Keys(recipes)
    ensures forall i :: 0 <= i < |r| ==>
              && r[i].1.id == recipes[i].1.id
              && r[i].1.name == recipes[i].1.name
              && (forall l :: l in r[i].1.ingredients <==> l in recipes[i].1.ingredients && l.id != id)
              && (forall l: IngredientLine :: l.id != id ==> multiset(r[i].1.ingredients)[l] == multiset(recipes[i].1.ingredients)[l])
              && IsSubsequence(r[i].1.ingredients, recipes[i].1.ingredients)
  {
    MapValues(recipes, (rec: RecipeDoc) =>
      rec.(ingredients := Filter(rec.ingredients, (l: IngredientLine) => l.id != id)))
  }
}
