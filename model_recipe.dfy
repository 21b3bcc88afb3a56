/** The `recipes` and `categories` tables as declared in the schema. */
module RecipeModel {
  import opened Wrappers
  import Json

  /** Moments as the `datetime.utcnow` clock gives them. */
  type Timestamp = int

  const TITLE_MAX := 200
  const CATEGORY_NAME_MAX := 100

  /**
   * A recipe row. NOT NULL columns are plain values, nullable ones are
   * `Option`s: `user_id`, `title`, `description` and `instructions`
   * must be present; `category_id`, `image_url`, `prep_time`,
   * `cook_time` and `servings` may be NULL and carry no sign constraint.
   */
  datatype Recipe = Recipe(
    userId: int,
    title: string,
    description: string,
    instructions: string,
    categoryId: Option<int>,
    imageUrl: Option<string>,
    prepTime: Option<int>,
    cookTime: Option<int>,
    servings: Option<int>,
    createdAt: Timestamp,
    updatedAt: Timestamp)
  {
    /** `title` is a VARCHAR(200); `prep_time`, `cook_time` and `servings` are INTEGERs. */
    predicate WellFormed()
    {
      && |title| <= TITLE_MAX
      && (prepTime.Some? ==> Json.FitsInteger(prepTime.value))
      && (cookTime.Some? ==> Json.FitsInteger(cookTime.value))
      && (servings.Some? ==> Json.FitsInteger(servings.value))
    }

    /** The row with both timestamps left out: what an UPDATE can change. */
    function Columns(): Recipe
    {
      this.(createdAt := 0, updatedAt := 0)
    }
  }

  /**
   * The row `create_recipe` inserts: `created_at` and `updated_at` both
   * take their default, the insert time.
   */
  function NewRecipe(userId: int, title: string, description: string, instructions: string,
                     categoryId: Option<int>, imageUrl: Option<string>, prepTime: Option<int>,
                     cookTime: Option<int>, servings: Option<int>, now: Timestamp): (r: Recipe)
    ensures r.createdAt == now && r.updatedAt == now
    ensures r.userId == userId && r.title == title && r.categoryId == categoryId
  {
    Recipe(userId, title, description, instructions, categoryId, imageUrl, prepTime, cookTime,
           servings, now, now)
  }

  /**
   * What an UPDATE of `before` to the column values of `after` stores:
   * `updated_at` takes the clock's value (its `onupdate` default fires
   * whenever an UPDATE is sent) and `created_at` never changes.
   */
  function Touch(before: Recipe, after: Recipe, now: Timestamp): (r: Recipe)
    ensures r.Columns() == after.Columns()
    ensures r.createdAt == before.createdAt && r.updatedAt == now
    ensures r.WellFormed() == after.WellFormed() && r.userId == after.userId && r.categoryId == after.categoryId
  {
    after.(createdAt := before.createdAt, updatedAt := now)
  }

  /** A category row: `name` is a VARCHAR(100) NOT NULL. */
  datatype Category = Category(name: string)
  {
    predicate WellFormed()
    {
      |name| <= CATEGORY_NAME_MAX
    }
  }
}
