/** The `dietary_restrictions` table and its `recipe_dietary_restrictions` link table. */
module DietaryModel {

  const RESTRICTION_NAME_MAX := 100

  /** `name` is a VARCHAR(100) NOT NULL, unique across the table. */
  datatype DietaryRestriction = DietaryRestriction(name: string)
  {
    predicate WellFormed()
    {
      |name| <= RESTRICTION_NAME_MAX
    }
  }

  /** A link row; both columns NOT NULL, no uniqueness on the pair. */
  datatype RecipeDietaryRestriction = RecipeDietaryRestriction(recipeId: int, dietaryRestrictionId: int)

  /** The unique constraint on `name`. */
  predicate UniqueNames(t: map<int, DietaryRestriction>)
  {
    forall a, b :: a in t && b in t && t[a].name == t[b].name ==> a == b
  }
}
