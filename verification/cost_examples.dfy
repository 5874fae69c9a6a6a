/** Worked cases of the costing engine, on the fixtures of
    src/tests/costCalculatorUtils.spec.ts. */
module CostExamples {
  import opened Wrappers
  import opened Records
  import opened Schema
  import opened Units
  import opened RecordFold
  import opened CostCalculatorUtils

  function Ingredient(id: string, cost: real, amount: real, unit: string): IngredientDoc {
    IngredientDoc(id, id, "test", Product(cost, amount, unit), "#ffffff")
  }

  function Line(id: string, amount: real, unit: string, hidden: bool): IngredientLine {
    IngredientLine(id, Portion(amount, unit), hidden)
  }

  const Flour := Ingredient("flour", 100.0, 1000.0, "g")
  const Sugar := Ingredient("sugar", 80.0, 500.0, "g")

  /** 500 g of flour at 100 per 1000 g costs 50. */
  lemma SingleLine(resolve: Resolver)
    requires ValidResolver(resolve)
    ensures CalculateRecipeCosts(RecipeDoc("cake", "Cake", [Line("flour", 500.0, "g", false)]),
                                 [("flour", Flour)], [], resolve) == Ok([("flour", 50.0)])
  {
    var lines := [Line("flour", 500.0, "g", false)];
    var costs := [("flour", Flour)];
    assert resolve("g", "g", "flour", []) == Some(1.0);
    GetCons(costs);
    assert LineOutcome(lines[0], costs, [], resolve) == Some(Ok(50.0));
    var outcome := LineOutcomes(costs, [], resolve);
    AssignStep(lines, LineKey, outcome);
    assert lines[..0] == [];
    assert AssignAll(lines[..0], LineKey, outcome) == Ok([]);
    assert Keys<real>([]) == [];
    assert Set<real>([], "flour", 50.0) == [("flour", 50.0)];
  }

  /** A hidden line and a line for an unknown id leave no entry. */
  lemma SkippedLines(resolve: Resolver)
    requires ValidResolver(resolve)
    ensures CalculateRecipeCosts(RecipeDoc("cake", "Cake", [Line("flour", 200.0, "g", false),
                                                            Line("sugar", 100.0, "g", true),
                                                            Line("missing", 100.0, "g", false)]),
                                 [("flour", Flour), ("sugar", Sugar)], [], resolve) == Ok([("flour", 20.0)])
  {
    var lines := [Line("flour", 200.0, "g", false), Line("sugar", 100.0, "g", true),
                  Line("missing", 100.0, "g", false)];
    var costs := [("flour", Flour), ("sugar", Sugar)];
    var outcome := LineOutcomes(costs, [], resolve);
    assert resolve("g", "g", "flour", []) == Some(1.0);
    GetCons(costs);
    GetCons(costs[1..]);
    assert Keys(costs[1..][1..]) == [];
    assert outcome(lines[0]) == Some(Ok(20.0));
    assert outcome(lines[1]).None?;
    assert outcome(lines[2]).None?;
    AssignStep(lines, LineKey, outcome);
    AssignStep(lines[..2], LineKey, outcome);
    AssignStep(lines[..1], LineKey, outcome);
    assert lines[..2][..1] == lines[..1] && lines[..1][..0] == [];
    assert AssignAll(lines[..1][..0], LineKey, outcome) == Ok([]);
    assert Keys<real>([]) == [];
    assert Set<real>([], "flour", 20.0) == [("flour", 20.0)];
  }

  /** With no path from cups to grams the call throws, naming both units and
      the ingredient. */
  lemma NoPathThrows(resolve: Resolver)
    requires resolve("cup", "g", "flour", []).None?
    ensures CalculateRecipeCosts(RecipeDoc("cake", "Cake", [Line("flour", 1.0, "cup", false)]),
                                 [("flour", Flour)], [], resolve) == Err(NoConversionPath("cup", "g", "flour"))
  {
  }

  /** The dough recipe: flour 300 g at 100 per 1000 g, sugar 50 g at 80 per 500 g. */
  lemma DoughLines(resolve: Resolver)
    requires ValidResolver(resolve)
    ensures CalculateRecipeCosts(RecipeDoc("dough", "Dough", [Line("flour", 300.0, "g", false),
                                                              Line("sugar", 50.0, "g", false)]),
                                 [("flour", Flour), ("sugar", Sugar)], [], resolve) ==
            Ok([("flour", 30.0), ("sugar", 8.0)])
  {
    var lines := [Line("flour", 300.0, "g", false), Line("sugar", 50.0, "g", false)];
    var costs := [("flour", Flour), ("sugar", Sugar)];
    var outcome := LineOutcomes(costs, [], resolve);
    assert resolve("g", "g", "flour", []) == Some(1.0);
    assert resolve("g", "g", "sugar", []) == Some(1.0);
    GetCons(costs);
    GetCons(costs[1..]);
    assert outcome(lines[0]) == Some(Ok(30.0));
    assert outcome(lines[1]) == Some(Ok(8.0));
    AssignStep(lines, LineKey, outcome);
    AssignStep(lines[..1], LineKey, outcome);
    assert lines[..1][..0] == [];
    assert AssignAll(lines[..1][..0], LineKey, outcome) == Ok([]);
    assert Keys<real>([]) == [];
    assert Set<real>([], "flour", 30.0) == [("flour", 30.0)];
    assert Keys([("flour", 30.0)]) == ["flour"];
    assert Set([("flour", 30.0)], "sugar", 8.0) == [("flour", 30.0), ("sugar", 8.0)];
  }

  const Dough := CompoundIngredientDoc("dough", "Dough", [Line("flour", 300.0, "g", false),
                                                         Line("sugar", 50.0, "g", false)],
                                      "compound", "#cccccc", Portion(500.0, "g"), "g")

  /** Its production cost is 30 + 8. */
  lemma DoughCost(resolve: Resolver)
    requires ValidResolver(resolve)
    ensures CompoundCost(Dough, [("flour", Flour), ("sugar", Sugar)], [], resolve) == Ok(38.0)
  {
    DoughLines(resolve);
    var lineCosts: Record<real> := [("flour", 30.0), ("sugar", 8.0)];
    assert Values(lineCosts) == [30.0, 8.0];
    assert [30.0, 8.0][..1] == [30.0] && [30.0][..0] == [];
    assert Sum([30.0, 8.0]) == Sum([30.0]) + 8.0;
    assert Sum([30.0]) == Sum([]) + 30.0;
    assert GetTotalRecipeCost(lineCosts) == 38.0;
  }

  /** A compound of 300 g flour and 50 g sugar yielding 500 g becomes an
      ingredient whose 500 g package costs 38. */
  lemma DoughCompound(resolve: Resolver)
    requires ValidResolver(resolve)
    ensures CompoundsToIngredients([("dough", Dough)], [("flour", Flour), ("sugar", Sugar)], [], resolve) ==
            Ok([("dough", IngredientDoc("dough", "Dough", "compound", Product(38.0, 500.0, "g"), "#cccccc"))])
  {
    var costs := [("flour", Flour), ("sugar", Sugar)];
    var outcome := CompoundOutcomes(costs, [], resolve);
    DoughCost(resolve);
    var items := Values([("dough", Dough)]);
    assert items == [Dough];
    assert outcome(Dough) == Some(Ok(Derived(Dough, 38.0)));
    AssignStep(items, CompoundKey, outcome);
    assert items[..0] == [];
    assert AssignAll(items[..0], CompoundKey, outcome) == Ok([]);
    assert Keys<IngredientDoc>([]) == [];
    assert Set<IngredientDoc>([], "dough", Derived(Dough, 38.0)) == [("dough", Derived(Dough, 38.0))];
  }
}
