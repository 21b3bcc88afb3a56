/**
 * The database as the route handlers see it through `db.session`: one
 * mutable table per model, and the SERIAL counter behind each primary key
 * that the routes insert into. A handler's writes become visible only
 * when its commit succeeds; a handler that returns early or raises
 * leaves every table as it was.
 */
module Session {
  import opened UserModel
  import opened RecipeModel
  import opened IngredientModel
  import opened DietaryModel
  import opened InteractionModel
  import opened Database
  import opened Http

  /** The next value of each SERIAL primary key that some route inserts into. */
  datatype Sequences = Sequences(
    users: int,
    recipes: int,
    recipeIngredients: int,
    recipeDietaryRestrictions: int,
    ratings: int,
    comments: int,
    favorites: int)

  /** Every key in `keys` was handed out before `next`. */
  ghost predicate Below(keys: set<int>, next: int)
  {
    forall k :: k in keys ==> k < next
  }

  /** No counter will hand out a key already in use. */
  ghost predicate Ahead(db: Db, seqs: Sequences)
  {
    && Below(db.users.Keys, seqs.users)
    && Below(db.recipes.Keys, seqs.recipes)
    && Below(db.recipeIngredients.Keys, seqs.recipeIngredients)
    && Below(db.recipeDietaryRestrictions.Keys, seqs.recipeDietaryRestrictions)
    && Below(db.ratings.Keys, seqs.ratings)
    && Below(db.comments.Keys, seqs.comments)
    && Below(db.favorites.Keys, seqs.favorites)
  }

  /** A users table whose keys are all below `next` keeps every counter ahead. */
  lemma AheadWithUsers(db: Db, seqs: Sequences, t: map<int, User>, next: int)
    requires Ahead(db, seqs) && Below(t.Keys, next)
    ensures Ahead(db.(users := t), seqs.(users := next))
  {
  }

  /** A ratings table whose keys are all below `next` keeps every counter ahead. */
  lemma AheadWithRatings(db: Db, seqs: Sequences, t: map<int, Rating>, next: int)
    requires Ahead(db, seqs) && Below(t.Keys, next)
    ensures Ahead(db.(ratings := t), seqs.(ratings := next))
  {
  }

  /** A comment under the counter's key, with the counter moved on, keeps every counter ahead. */
  lemma AheadWithComment(db: Db, seqs: Sequences, x: Comment)
    requires Ahead(db, seqs)
    ensures Ahead(db.(comments := db.comments[seqs.comments := x]), seqs.(comments := seqs.comments + 1))
  {
  }

  /** A favorite under the counter's key, with the counter moved on, keeps every counter ahead. */
  lemma AheadWithFavorite(db: Db, seqs: Sequences, x: Favorite)
    requires Ahead(db, seqs)
    ensures Ahead(db.(favorites := db.favorites[seqs.favorites := x]), seqs.(favorites := seqs.favorites + 1))
  {
  }

  /** Removing rows, or replacing them under the same keys, keeps every counter ahead. */
  lemma AheadShrinks(db: Db, seqs: Sequences, d: Db)
    requires Ahead(db, seqs)
    requires d.users.Keys <= db.users.Keys && d.recipes.Keys <= db.recipes.Keys
    requires d.recipeIngredients.Keys <= db.recipeIngredients.Keys
    requires d.recipeDietaryRestrictions.Keys <= db.recipeDietaryRestrictions.Keys
    requires d.ratings.Keys <= db.ratings.Keys && d.comments.Keys <= db.comments.Keys
    requires d.favorites.Keys <= db.favorites.Keys
    ensures Ahead(d, seqs)
  {
  }

  /** What a handler answers and the committed state it leaves behind. */
  datatype Step = Step(reply: Reply, db: Db, seqs: Sequences)

  class Store {
    var users: map<int, User>
    var categories: map<int, Category>
    var recipes: map<int, Recipe>
    var ingredients: map<int, Ingredient>
    var recipeIngredients: map<int, RecipeIngredient>
    var dietaryRestrictions: map<int, DietaryRestriction>
    var recipeDietaryRestrictions: map<int, RecipeDietaryRestriction>
    var ratings: map<int, Rating>
    var comments: map<int, Comment>
    var favorites: map<int, Favorite>
    var seqs: Sequences

    /** The committed tables as one value. */
    function Tables(): Db
      reads this
    {
      Db(users, categories, recipes, ingredients, recipeIngredients, dietaryRestrictions,
         recipeDietaryRestrictions, ratings, comments, favorites)
    }

    /** The committed tables are consistent and every counter is ahead of its table. */
    ghost predicate Valid()
      reads this
    {
      Consistent(Tables()) && Ahead(Tables(), seqs)
    }

    /** Opens a store over existing tables. */
    constructor (db: Db, next: Sequences)
      requires Consistent(db) && Ahead(db, next)
      ensures Tables() == db && seqs == next
      ensures Valid()
    {
      users := db.users;
      categories := db.categories;
      recipes := db.recipes;
      ingredients := db.ingredients;
      recipeIngredients := db.recipeIngredients;
      dietaryRestrictions := db.dietaryRestrictions;
      recipeDietaryRestrictions := db.recipeDietaryRestrictions;
      ratings := db.ratings;
      comments := db.comments;
      favorites := db.favorites;
      seqs := next;
    }
  }
}
