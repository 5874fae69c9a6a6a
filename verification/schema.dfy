/** The documents the calculator works on (src/lib/data/schema.ts).  Numbers
    are exact reals; units are plain strings, since a unit may be a standard
    one or any ingredient-specific custom unit. */
module Schema {

  /** How much of something, and in which unit. */
  datatype Portion = Portion(amount: real, unit: string)

  /** The purchasable package: it costs `cost` and holds `amount` of `unit`. */
  datatype Product = Product(cost: real, amount: real, unit: string)

  datatype IngredientDoc = IngredientDoc(
    id: string,
    name: string,
    category: string,
    product: Product,
    color: string)

  /** One line of a recipe; a hidden line is kept for display only. */
  datatype IngredientLine = IngredientLine(id: string, portion: Portion, hidden: bool)

  datatype RecipeDoc = RecipeDoc(id: string, name: string, ingredients: seq<IngredientLine>)

  /** A recipe whose output is itself an ingredient.  `yieldPortion` is the
      source's `yield` field (a reserved word in Dafny). */
  datatype CompoundIngredientDoc = CompoundIngredientDoc(
    id: string,
    name: string,
    ingredients: seq<IngredientLine>,
    category: string,
    color: string,
    yieldPortion: Portion,
    viewedUnit: string)
  {
    /** The `RecipeDoc` part of the compound (the interface it extends). */
    function AsRecipe(): RecipeDoc {
      RecipeDoc(id, name, ingredients)
    }
  }

  /** For ingredient `ingredientId`: one `inputUnit` is `conversionFactor`
      `outputUnit`s. */
  datatype UnitConversion = UnitConversion(
    ingredientId: string,
    inputUnit: string,
    outputUnit: string,
    conversionFactor: real)
}
