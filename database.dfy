/**
 * The whole database as one value: one map from primary key to row per
 * table, the consistency the declared schema (and the account routes)
 * keep, and the declared `ondelete` rules as functions.
 */
module Database {
  import opened Wrappers
  import opened UserModel
  import opened RecipeModel
  import opened IngredientModel
  import opened DietaryModel
  import opened InteractionModel

  datatype Db = Db(
    users: map<int, User>,
    categories: map<int, Category>,
    recipes: map<int, Recipe>,
    ingredients: map<int, Ingredient>,
    recipeIngredients: map<int, RecipeIngredient>,
    dietaryRestrictions: map<int, DietaryRestriction>,
    recipeDietaryRestrictions: map<int, RecipeDietaryRestriction>,
    ratings: map<int, Rating>,
    comments: map<int, Comment>,
    favorites: map<int, Favorite>)

  const Empty := Db(map[], map[], map[], map[], map[], map[], map[], map[], map[], map[])

  /** The rows of `m` that satisfy `p`, under their own keys. */
  function Keep<T>(m: map<int, T>, p: T -> bool): (r: map<int, T>)
    ensures forall k :: k in r <==> k in m && p(m[k])
    ensures forall k :: k in r ==> r[k] == m[k]
  {
    map k | k in m && p(m[k]) :: m[k]
  }

  /** Every row satisfies its columns' length and precision bounds. */
  ghost predicate RowsWellFormed(db: Db)
  {
    && (forall k :: k in db.users ==> db.users[k].WellFormed())
    && (forall k :: k in db.recipes ==> db.recipes[k].WellFormed())
    && (forall k :: k in db.categories ==> db.categories[k].WellFormed())
    && (forall k :: k in db.ingredients ==> db.ingredients[k].WellFormed())
    && (forall k :: k in db.recipeIngredients ==> db.recipeIngredients[k].WellFormed())
    && (forall k :: k in db.dietaryRestrictions ==> db.dietaryRestrictions[k].WellFormed())
  }

  /** Every row of `m` refers, through `ref`, to one of `keys`. */
  ghost predicate RefsIn<T>(m: map<int, T>, ref: T -> int, keys: set<int>)
  {
    forall k :: k in m ==> ref(m[k]) in keys
  }

  /** A non-NULL `category_id` names a live category. */
  ghost predicate CategoriesLive(recipes: map<int, Recipe>, categories: set<int>)
  {
    forall k :: k in recipes && recipes[k].categoryId.Some? ==> recipes[k].categoryId.value in categories
  }

  /** Every foreign key names a live row. */
  ghost predicate RefIntegrity(db: Db)
  {
    && RefsIn(db.recipes, (r: Recipe) => r.userId, db.users.Keys)
    && CategoriesLive(db.recipes, db.categories.Keys)
    && RefsIn(db.recipeIngredients, (l: RecipeIngredient) => l.recipeId, db.recipes.Keys)
    && RefsIn(db.recipeIngredients, (l: RecipeIngredient) => l.ingredientId, db.ingredients.Keys)
    && RefsIn(db.recipeDietaryRestrictions, (l: RecipeDietaryRestriction) => l.recipeId, db.recipes.Keys)
    && RefsIn(db.recipeDietaryRestrictions, (l: RecipeDietaryRestriction) => l.dietaryRestrictionId, db.dietaryRestrictions.Keys)
    && RefsIn(db.ratings, (x: Rating) => x.userId, db.users.Keys)
    && RefsIn(db.ratings, (x: Rating) => x.recipeId, db.recipes.Keys)
    && RefsIn(db.comments, (x: Comment) => x.userId, db.users.Keys)
    && RefsIn(db.comments, (x: Comment) => x.recipeId, db.recipes.Keys)
    && RefsIn(db.favorites, (x: Favorite) => x.userId, db.users.Keys)
    && RefsIn(db.favorites, (x: Favorite) => x.recipeId, db.recipes.Keys)
  }

  /** Removing rows whose reference is among `gone` keeps the rest referring to live keys. */
  lemma KeepRefsIn<T>(m: map<int, T>, ref: T -> int, keys: set<int>, p: T -> bool, gone: set<int>)
    requires RefsIn(m, ref, keys)
    requires forall x :: p(x) ==> ref(x) !in gone
    ensures RefsIn(Keep(m, p), ref, keys - gone)
  {
  }

  /** No two accounts share a username, and no two share an email. */
  ghost predicate UniqueAccounts(users: map<int, User>)
  {
    && (forall a, b :: a in users && b in users && users[a].username == users[b].username ==> a == b)
    && (forall a, b :: a in users && b in users && users[a].email == users[b].email ==> a == b)
  }

  /** At most one rating row per (user, recipe). */
  ghost predicate AtMostOneRating(ratings: map<int, Rating>)
  {
    forall a, b ::
      (a in ratings && b in ratings && ratings[a].userId == ratings[b].userId
       && ratings[a].recipeId == ratings[b].recipeId) ==> a == b
  }

  /**
   * All the database keeps true: the schema's bounds, keys and unique
   * names, and the two uniqueness rules that only the routes enforce.
   */
  ghost predicate Consistent(db: Db)
  {
    && RowsWellFormed(db)
    && RefIntegrity(db)
    && UniqueNames(db.dietaryRestrictions)
    && UniqueAccounts(db.users)
    && AtMostOneRating(db.ratings)
  }

  /** A users table with at least the old keys and no shared name or address keeps the database consistent. */
  lemma WithUsers(db: Db, t: map<int, User>)
    requires Consistent(db)
    requires db.users.Keys <= t.Keys && UniqueAccounts(t) && forall k :: k in t ==> t[k].WellFormed()
    ensures Consistent(db.(users := t))
  {
  }

  /** Replacing the ratings table by one that keeps the rating rules keeps the database consistent. */
  lemma WithRatings(db: Db, t: map<int, Rating>)
    requires Consistent(db)
    requires RefsIn(t, (x: Rating) => x.userId, db.users.Keys)
    requires RefsIn(t, (x: Rating) => x.recipeId, db.recipes.Keys)
    requires AtMostOneRating(t)
    ensures Consistent(db.(ratings := t))
  {
  }

  /** The recipe row can be committed: its owner and category exist and its title fits. */
  predicate Storable(db: Db, x: Recipe)
  {
    x.userId in db.users && (x.categoryId.Some? ==> x.categoryId.value in db.categories) && x.WellFormed()
  }

  /** Storing a committable recipe row under any key keeps the database consistent. */
  lemma WithRecipe(db: Db, k: int, x: Recipe)
    requires Consistent(db) && Storable(db, x)
    ensures Consistent(db.(recipes := db.recipes[k := x]))
  {
  }

  /**
   * The table with `rows` added under the keys `next`, `next + 1`, …, as a
   * SERIAL column hands them out.
   */
  function InsertAll<T>(m: map<int, T>, next: int, rows: seq<T>): (r: map<int, T>)
    ensures forall k :: k in r <==> k in m || next <= k < next + |rows|
    ensures forall k :: next <= k < next + |rows| ==> r[k] == rows[k - next]
    ensures forall k :: k in m && !(next <= k < next + |rows|) ==> r[k] == m[k]
  {
    map k | k in m.Keys + Span(next, |rows|) :: if next <= k < next + |rows| then rows[k - next] else m[k]
  }

  /** The keys `next` up to but not including `next + n`. */
  function Span(next: int, n: nat): (s: set<int>)
    ensures forall k :: k in s <==> next <= k < next + n
  {
    var ks := seq(n, i => next + i);
    forall k | next <= k < next + n
      ensures k in ks
    {
      assert ks[k - next] == k;
    }
    set k | k in ks
  }

  lemma {:induction false} SpanSize(next: int, n: nat)
    ensures |Span(next, n)| == n
  {
    if n > 0 {
      SpanSize(next, n - 1);
      assert Span(next, n) == Span(next, n - 1) + {next + n - 1};
    }
  }

  /** Rows added under keys no row has yet make the table grow by exactly their number. */
  lemma InsertAllSize<T>(m: map<int, T>, next: int, rows: seq<T>)
    requires forall k :: k in m ==> k < next
    ensures |InsertAll(m, next, rows)| == |m| + |rows|
  {
    var r := InsertAll(m, next, rows);
    assert r.Keys == m.Keys + Span(next, |rows|);
    assert m.Keys * Span(next, |rows|) == {};
    SpanSize(next, |rows|);
    assert |r.Keys| == |r|;
    assert |m.Keys| == |m|;
  }

  /** Replacing the ingredient links by rows that refer to live recipes and ingredients and fit their columns. */
  lemma WithIngredientTable(db: Db, t: map<int, RecipeIngredient>)
    requires Consistent(db)
    requires RefsIn(t, (l: RecipeIngredient) => l.recipeId, db.recipes.Keys)
    requires RefsIn(t, (l: RecipeIngredient) => l.ingredientId, db.ingredients.Keys)
    requires forall k :: k in t ==> t[k].WellFormed()
    ensures Consistent(db.(recipeIngredients := t))
  {
  }

  /** Replacing the restriction links by rows that refer to live recipes and restrictions. */
  lemma WithDietaryTable(db: Db, t: map<int, RecipeDietaryRestriction>)
    requires Consistent(db)
    requires RefsIn(t, (l: RecipeDietaryRestriction) => l.recipeId, db.recipes.Keys)
    requires RefsIn(t, (l: RecipeDietaryRestriction) => l.dietaryRestrictionId, db.dietaryRestrictions.Keys)
    ensures Consistent(db.(recipeDietaryRestrictions := t))
  {
  }

  /** Committing link rows to live recipes and ingredients keeps the database consistent. */
  lemma WithIngredientLinks(db: Db, next: int, ls: seq<RecipeIngredient>)
    requires Consistent(db)
    requires forall i :: 0 <= i < |ls| ==> ls[i].recipeId in db.recipes && ls[i].ingredientId in db.ingredients && ls[i].WellFormed()
    ensures Consistent(db.(recipeIngredients := InsertAll(db.recipeIngredients, next, ls)))
  {
    var t := InsertAll(db.recipeIngredients, next, ls);
    forall k | k in t
      ensures t[k].recipeId in db.recipes && t[k].ingredientId in db.ingredients && t[k].WellFormed()
    {
      if next <= k < next + |ls| {
        assert t[k] == ls[k - next];
      }
    }
    WithIngredientTable(db, t);
  }

  /** Committing link rows to live recipes and restrictions keeps the database consistent. */
  lemma WithDietaryLinks(db: Db, next: int, ls: seq<RecipeDietaryRestriction>)
    requires Consistent(db)
    requires forall i :: 0 <= i < |ls| ==> ls[i].recipeId in db.recipes && ls[i].dietaryRestrictionId in db.dietaryRestrictions
    ensures Consistent(db.(recipeDietaryRestrictions := InsertAll(db.recipeDietaryRestrictions, next, ls)))
  {
    var t := InsertAll(db.recipeDietaryRestrictions, next, ls);
    forall k | k in t
      ensures t[k].recipeId in db.recipes && t[k].dietaryRestrictionId in db.dietaryRestrictions
    {
      if next <= k < next + |ls| {
        assert t[k] == ls[k - next];
      }
    }
    WithDietaryTable(db, t);
  }

  /** Adding a comment that names a live user and recipe keeps the database consistent. */
  lemma WithComment(db: Db, k: int, x: Comment)
    requires Consistent(db) && x.userId in db.users && x.recipeId in db.recipes
    ensures Consistent(db.(comments := db.comments[k := x]))
  {
  }

  /** Adding a favorite that names a live user and recipe keeps the database consistent. */
  lemma WithFavorite(db: Db, k: int, x: Favorite)
    requires Consistent(db) && x.userId in db.users && x.recipeId in db.recipes
    ensures Consistent(db.(favorites := db.favorites[k := x]))
  {
  }

  /** Deleting recipe `rid`: its ingredient links, dietary links, ratings, comments and favorites go with it (CASCADE). */
  function DeleteRecipe(db: Db, rid: int): (r: Db)
    ensures r.recipes == db.recipes - {rid}
    ensures r.users == db.users && r.categories == db.categories && r.ingredients == db.ingredients
    ensures r.dietaryRestrictions == db.dietaryRestrictions
    ensures r.recipeIngredients == Keep(db.recipeIngredients, (l: RecipeIngredient) => l.recipeId != rid)
    ensures r.recipeDietaryRestrictions == Keep(db.recipeDietaryRestrictions, (l: RecipeDietaryRestriction) => l.recipeId != rid)
    ensures r.ratings == Keep(db.ratings, (x: Rating) => x.recipeId != rid)
    ensures r.comments == Keep(db.comments, (x: Comment) => x.recipeId != rid)
    ensures r.favorites == Keep(db.favorites, (x: Favorite) => x.recipeId != rid)
  {
    db.(recipes := db.recipes - {rid},
        recipeIngredients := Keep(db.recipeIngredients, (l: RecipeIngredient) => l.recipeId != rid),
        recipeDietaryRestrictions := Keep(db.recipeDietaryRestrictions, (l: RecipeDietaryRestriction) => l.recipeId != rid),
        ratings := Keep(db.ratings, (x: Rating) => x.recipeId != rid),
        comments := Keep(db.comments, (x: Comment) => x.recipeId != rid),
        favorites := Keep(db.favorites, (x: Favorite) => x.recipeId != rid))
  }

  /** No row of any child table refers to recipe `rid`. */
  ghost predicate NoRowRefersToRecipe(db: Db, rid: int)
  {
    && (forall k :: k in db.recipeIngredients ==> db.recipeIngredients[k].recipeId != rid)
    && (forall k :: k in db.recipeDietaryRestrictions ==> db.recipeDietaryRestrictions[k].recipeId != rid)
    && (forall k :: k in db.ratings ==> db.ratings[k].recipeId != rid)
    && (forall k :: k in db.comments ==> db.comments[k].recipeId != rid)
    && (forall k :: k in db.favorites ==> db.favorites[k].recipeId != rid)
  }

  /**
   * After a recipe is deleted nothing refers to it, every rating and
   * comment that did not refer to it is still there and unchanged, and
   * the database is still consistent.
   */
  lemma DeleteRecipeLeavesNoOrphans(db: Db, rid: int)
    requires Consistent(db)
    ensures Consistent(DeleteRecipe(db, rid))
    ensures rid !in DeleteRecipe(db, rid).recipes && NoRowRefersToRecipe(DeleteRecipe(db, rid), rid)
    ensures forall k :: k in db.ratings && db.ratings[k].recipeId != rid ==>
      k in DeleteRecipe(db, rid).ratings && DeleteRecipe(db, rid).ratings[k] == db.ratings[k]
    ensures forall k :: k in db.comments && db.comments[k].recipeId != rid ==>
      k in DeleteRecipe(db, rid).comments && DeleteRecipe(db, rid).comments[k] == db.comments[k]
  {
    DeleteRecipeKeepsKeys(db, rid);
    DeleteRecipeKeepsRows(db, rid);
  }

  lemma DeleteRecipeKeepsKeys(db: Db, rid: int)
    requires RefIntegrity(db)
    ensures RefIntegrity(DeleteRecipe(db, rid))
  {
    KeepRefsIn(db.recipeIngredients, (l: RecipeIngredient) => l.recipeId, db.recipes.Keys,
      (l: RecipeIngredient) => l.recipeId != rid, {rid});
    KeepRefsIn(db.recipeDietaryRestrictions, (l: RecipeDietaryRestriction) => l.recipeId, db.recipes.Keys,
      (l: RecipeDietaryRestriction) => l.recipeId != rid, {rid});
    KeepRefsIn(db.ratings, (x: Rating) => x.recipeId, db.recipes.Keys, (x: Rating) => x.recipeId != rid, {rid});
    KeepRefsIn(db.comments, (x: Comment) => x.recipeId, db.recipes.Keys, (x: Comment) => x.recipeId != rid, {rid});
    KeepRefsIn(db.favorites, (x: Favorite) => x.recipeId, db.recipes.Keys, (x: Favorite) => x.recipeId != rid, {rid});
  }

  lemma DeleteRecipeKeepsRows(db: Db, rid: int)
    requires RowsWellFormed(db) && AtMostOneRating(db.ratings)
    ensures RowsWellFormed(DeleteRecipe(db, rid)) && AtMostOneRating(DeleteRecipe(db, rid).ratings)
  {
  }

  /**
   * Deleting user `uid`: their recipes go (CASCADE on `recipes.user_id`)
   * and with each of those its links and interactions; every rating,
   * comment and favorite made by the user goes too.
   */
  function DeleteUser(db: Db, uid: int): (r: Db)
    ensures r.users == db.users - {uid}
    ensures r.recipes == db.recipes - OwnedBy(db.recipes, uid)
    ensures r.categories == db.categories && r.ingredients == db.ingredients
    ensures r.dietaryRestrictions == db.dietaryRestrictions
    ensures r.recipeIngredients == Keep(db.recipeIngredients, (l: RecipeIngredient) => l.recipeId !in OwnedBy(db.recipes, uid))
    ensures r.recipeDietaryRestrictions ==
      Keep(db.recipeDietaryRestrictions, (l: RecipeDietaryRestriction) => l.recipeId !in OwnedBy(db.recipes, uid))
    ensures r.ratings == Keep(db.ratings, (x: Rating) => x.userId != uid && x.recipeId !in OwnedBy(db.recipes, uid))
    ensures r.comments == Keep(db.comments, (x: Comment) => x.userId != uid && x.recipeId !in OwnedBy(db.recipes, uid))
    ensures r.favorites == Keep(db.favorites, (x: Favorite) => x.userId != uid && x.recipeId !in OwnedBy(db.recipes, uid))
  {
    var gone := OwnedBy(db.recipes, uid);
    db.(users := db.users - {uid},
        recipes := db.recipes - gone,
        recipeIngredients := Keep(db.recipeIngredients, (l: RecipeIngredient) => l.recipeId !in gone),
        recipeDietaryRestrictions := Keep(db.recipeDietaryRestrictions, (l: RecipeDietaryRestriction) => l.recipeId !in gone),
        ratings := Keep(db.ratings, (x: Rating) => x.userId != uid && x.recipeId !in gone),
        comments := Keep(db.comments, (x: Comment) => x.userId != uid && x.recipeId !in gone),
        favorites := Keep(db.favorites, (x: Favorite) => x.userId != uid && x.recipeId !in gone))
  }

  /** The ids of the recipes user `uid` owns. */
  function OwnedBy(recipes: map<int, Recipe>, uid: int): (s: set<int>)
    ensures forall k :: k in s <==> k in recipes && recipes[k].userId == uid
  {
    set k | k in recipes && recipes[k].userId == uid
  }

  /** After a user is deleted, no recipe, rating, comment or favorite of theirs remains, and the database is consistent. */
  lemma DeleteUserLeavesNoOrphans(db: Db, uid: int)
    requires Consistent(db)
    ensures Consistent(DeleteUser(db, uid))
    ensures RefsIn(DeleteUser(db, uid).recipes, (x: Recipe) => x.userId, db.users.Keys - {uid})
    ensures RefsIn(DeleteUser(db, uid).ratings, (x: Rating) => x.userId, db.users.Keys - {uid})
    ensures RefsIn(DeleteUser(db, uid).comments, (x: Comment) => x.userId, db.users.Keys - {uid})
    ensures RefsIn(DeleteUser(db, uid).favorites, (x: Favorite) => x.userId, db.users.Keys - {uid})
  {
    DeleteUserKeepsKeys(db, uid);
    DeleteUserKeepsRows(db, uid);
  }

  lemma DeleteUserKeepsKeys(db: Db, uid: int)
    requires RefIntegrity(db)
    ensures RefIntegrity(DeleteUser(db, uid))
  {
    var r := DeleteUser(db, uid);
    var gone := OwnedBy(db.recipes, uid);
    assert r.recipes.Keys == db.recipes.Keys - gone;
    assert RefsIn(r.recipes, (x: Recipe) => x.userId, db.users.Keys - {uid});
    KeepRefsIn(db.recipeIngredients, (l: RecipeIngredient) => l.recipeId, db.recipes.Keys,
      (l: RecipeIngredient) => l.recipeId !in gone, gone);
    KeepRefsIn(db.recipeDietaryRestrictions, (l: RecipeDietaryRestriction) => l.recipeId, db.recipes.Keys,
      (l: RecipeDietaryRestriction) => l.recipeId !in gone, gone);
    KeepRefsIn(db.ratings, (x: Rating) => x.recipeId, db.recipes.Keys,
      (x: Rating) => x.userId != uid && x.recipeId !in gone, gone);
    KeepRefsIn(db.ratings, (x: Rating) => x.userId, db.users.Keys,
      (x: Rating) => x.userId != uid && x.recipeId !in gone, {uid});
    KeepRefsIn(db.comments, (x: Comment) => x.recipeId, db.recipes.Keys,
      (x: Comment) => x.userId != uid && x.recipeId !in gone, gone);
    KeepRefsIn(db.comments, (x: Comment) => x.userId, db.users.Keys,
      (x: Comment) => x.userId != uid && x.recipeId !in gone, {uid});
    KeepRefsIn(db.favorites, (x: Favorite) => x.recipeId, db.recipes.Keys,
      (x: Favorite) => x.userId != uid && x.recipeId !in gone, gone);
    KeepRefsIn(db.favorites, (x: Favorite) => x.userId, db.users.Keys,
      (x: Favorite) => x.userId != uid && x.recipeId !in gone, {uid});
  }

  lemma DeleteUserKeepsRows(db: Db, uid: int)
    requires RowsWellFormed(db) && UniqueAccounts(db.users) && AtMostOneRating(db.ratings)
    ensures RowsWellFormed(DeleteUser(db, uid)) && UniqueAccounts(DeleteUser(db, uid).users)
    ensures AtMostOneRating(DeleteUser(db, uid).ratings)
  {
  }

  /** Deleting category `cid`: its recipes stay, with `category_id` set to NULL (SET NULL). */
  function DeleteCategory(db: Db, cid: int): (r: Db)
    ensures r.categories == db.categories - {cid}
    ensures r.recipes == UncategorizeAll(db.recipes, cid)
    ensures r == db.(categories := r.categories, recipes := r.recipes)
  {
    db.(categories := db.categories - {cid}, recipes := UncategorizeAll(db.recipes, cid))
  }

  /** The SET NULL rule applied to every recipe row. */
  function UncategorizeAll(m: map<int, Recipe>, cid: int): (r: map<int, Recipe>)
    ensures r.Keys == m.Keys
    ensures forall k :: k in m ==> r[k] == Uncategorize(m[k], cid)
  {
    map k | k in m :: Uncategorize(m[k], cid)
  }

  /** The SET NULL rule applied to one recipe row. */
  function Uncategorize(r: Recipe, cid: int): (u: Recipe)
    ensures u.categoryId == (if r.categoryId == Some(cid) then None else r.categoryId)
    ensures u == r.(categoryId := u.categoryId)
  {
    if r.categoryId == Some(cid) then r.(categoryId := None) else r
  }

  /**
   * SET NULL keeps every recipe, changing nothing in it but a `category_id`
   * that named `cid`; every other table and category is kept; the
   * database stays consistent.
   */
  lemma DeleteCategoryKeepsRecipes(db: Db, cid: int)
    requires Consistent(db)
    ensures Consistent(DeleteCategory(db, cid))
    ensures DeleteCategory(db, cid).recipes.Keys == db.recipes.Keys
    ensures forall k :: k in db.recipes ==>
      && DeleteCategory(db, cid).recipes[k].categoryId != Some(cid)
      && DeleteCategory(db, cid).recipes[k] == db.recipes[k].(categoryId := DeleteCategory(db, cid).recipes[k].categoryId)
      && (db.recipes[k].categoryId != Some(cid) ==> DeleteCategory(db, cid).recipes[k] == db.recipes[k])
    ensures DeleteCategory(db, cid) == db.(categories := db.categories - {cid}, recipes := DeleteCategory(db, cid).recipes)
  {
    assert DeleteCategory(db, cid).recipes.Keys == db.recipes.Keys;
  }

  /** Deleting ingredient `iid`: its link rows go with it (CASCADE). */
  function DeleteIngredient(db: Db, iid: int): (r: Db)
    ensures iid !in r.ingredients
    ensures forall k :: k in r.ingredients <==> k in db.ingredients && k != iid
    ensures forall k :: k in r.recipeIngredients <==>
      k in db.recipeIngredients && db.recipeIngredients[k].ingredientId != iid
    ensures forall k :: k in r.recipeIngredients ==> r.recipeIngredients[k] == db.recipeIngredients[k]
    ensures r.(ingredients := db.ingredients, recipeIngredients := db.recipeIngredients) == db
  {
    db.(ingredients := db.ingredients - {iid},
        recipeIngredients := Keep(db.recipeIngredients, (l: RecipeIngredient) => l.ingredientId != iid))
  }

  lemma DeleteIngredientLeavesNoOrphans(db: Db, iid: int)
    requires Consistent(db)
    ensures Consistent(DeleteIngredient(db, iid))
    ensures forall k :: k in DeleteIngredient(db, iid).recipeIngredients ==>
      DeleteIngredient(db, iid).recipeIngredients[k].ingredientId != iid
    ensures DeleteIngredient(db, iid).recipes == db.recipes
  {
  }

  /** Deleting dietary restriction `did`: its link rows go with it (CASCADE). */
  function DeleteDietaryRestriction(db: Db, did: int): (r: Db)
    ensures did !in r.dietaryRestrictions
    ensures forall k :: k in r.dietaryRestrictions <==> k in db.dietaryRestrictions && k != did
    ensures forall k :: k in r.recipeDietaryRestrictions <==>
      k in db.recipeDietaryRestrictions && db.recipeDietaryRestrictions[k].dietaryRestrictionId != did
    ensures forall k :: k in r.recipeDietaryRestrictions ==> r.recipeDietaryRestrictions[k] == db.recipeDietaryRestrictions[k]
    ensures r.(dietaryRestrictions := db.dietaryRestrictions, recipeDietaryRestrictions := db.recipeDietaryRestrictions) == db
  {
    db.(dietaryRestrictions := db.dietaryRestrictions - {did},
        recipeDietaryRestrictions := Keep(db.recipeDietaryRestrictions,
          (l: RecipeDietaryRestriction) => l.dietaryRestrictionId != did))
  }

  lemma DeleteDietaryRestrictionLeavesNoOrphans(db: Db, did: int)
    requires Consistent(db)
    ensures Consistent(DeleteDietaryRestriction(db, did))
    ensures forall k :: k in DeleteDietaryRestriction(db, did).recipeDietaryRestrictions ==>
      DeleteDietaryRestriction(db, did).recipeDietaryRestrictions[k].dietaryRestrictionId != did
    ensures DeleteDietaryRestriction(db, did).recipes == db.recipes
  {
  }

  /**
   * `recipe.dietary_restrictions` (the `secondary` relationship): the
   * restrictions some link row joins to recipe `rid`, by id.
   */
  function RestrictionsOf(db: Db, rid: int): (r: map<int, DietaryRestriction>)
    ensures forall d :: d in r <==> d in db.dietaryRestrictions && Linked(db, rid, d)
    ensures forall d :: d in r ==> r[d] == db.dietaryRestrictions[d]
  {
    map d | d in db.dietaryRestrictions && Linked(db, rid, d) :: db.dietaryRestrictions[d]
  }

  predicate Linked(db: Db, rid: int, did: int)
  {
    exists l :: l in db.recipeDietaryRestrictions
      && db.recipeDietaryRestrictions[l] == RecipeDietaryRestriction(rid, did)
  }

  /** Under referential integrity, every link row of the recipe shows up, and nothing else. */
  lemma RestrictionsOfReachable(db: Db, rid: int, l: int)
    requires RefIntegrity(db)
    requires l in db.recipeDietaryRestrictions && db.recipeDietaryRestrictions[l].recipeId == rid
    ensures db.recipeDietaryRestrictions[l].dietaryRestrictionId in RestrictionsOf(db, rid)
  {
    assert db.recipeDietaryRestrictions[l] == RecipeDietaryRestriction(rid, db.recipeDietaryRestrictions[l].dietaryRestrictionId);
  }
}
