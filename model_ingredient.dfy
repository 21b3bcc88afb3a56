/** The `ingredients` table and the `recipe_ingredients` link table. */
module IngredientModel {

  const INGREDIENT_NAME_MAX := 100
  const UNIT_MAX := 50

  /**
   * NUMERIC(10, 2): ten digits, two after the point. A quantity is kept
   * as a count of hundredths, so it has at most ten digits.
   */
  const QUANTITY_LIMIT := 10_000_000_000

  datatype Ingredient = Ingredient(name: string)
  {
    predicate WellFormed()
    {
      |name| <= INGREDIENT_NAME_MAX
    }
  }

  /** A link row; all four columns are NOT NULL. */
  datatype RecipeIngredient = RecipeIngredient(
    recipeId: int,
    ingredientId: int,
    quantity: int,
    unit: string)
  {
    predicate WellFormed()
    {
      -QUANTITY_LIMIT < quantity < QUANTITY_LIMIT && |unit| <= UNIT_MAX
    }
  }

  /** The quantity in units, as `float(ri.quantity)` shows it, kept exact. */
  function QuantityValue(l: RecipeIngredient): (q: real)
    ensures q * 100.0 == l.quantity as real
  {
    l.quantity as real / 100.0
  }
}
