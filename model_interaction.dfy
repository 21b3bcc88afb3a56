/**
 * The `ratings`, `comments` and `favorites` tables. Each row names a
 * user and a recipe (both NOT NULL, both ON DELETE CASCADE) and takes
 * the insert time as `created_at`. No unique constraint exists on
 * (user, recipe) in any of the three, the rating value has no range
 * constraint, and comment content is unbounded text.
 */
module InteractionModel {
  import opened RecipeModel

  datatype Rating = Rating(userId: int, recipeId: int, rating: int, createdAt: Timestamp)

  datatype Comment = Comment(userId: int, recipeId: int, content: string, createdAt: Timestamp)

  datatype Favorite = Favorite(userId: int, recipeId: int, createdAt: Timestamp)
}
