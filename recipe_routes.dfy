/**
 * app/recipes/routes.py: the filtered listing, the detail view with its
 * rating figures, and the owner-only create, update and delete.
 */
module RecipeRoutes {
  import opened Wrappers
  import opened Json
  import opened Http
  import opened Text
  import opened RecipeModel
  import opened IngredientModel
  import opened DietaryModel
  import opened Database
  import opened Session
  import Middleware
  import RatingRoutes

  const CREATED_MSG := "Recipe created successfully"
  const UPDATED_MSG := "Recipe updated successfully"
  const DELETED_MSG := "Recipe deleted successfully"
  const NOT_OWNER := "Unauthorized"

  // ---------------------------------------------------------------- listing

  /**
   * The query arguments of `get_recipes`: `type=int` turns a missing or
   * non-numeric `category`/`dietary` into `None`, and `search` defaults to ''.
   */
  datatype Filters = Filters(category: Option<int>, dietary: Option<int>, search: string)

  /** A numeric filter is applied only when it is given and not 0 (`if category_id:`). */
  predicate Active(v: Option<int>)
  {
    v.Some? && v.value != 0
  }

  /** The pattern `f'%{search}%'`: the search text is not escaped. */
  function Pattern(search: string): string
  {
    "%" + search + "%"
  }

  /** Recipe `k` passes every filter that is applied. */
  predicate Matches(db: Db, k: int, f: Filters)
    requires k in db.recipes
  {
    && (Active(f.category) ==> db.recipes[k].categoryId == Some(f.category.value))
    && (Active(f.dietary) ==> Linked(db, k, f.dietary.value))
    && (f.search != "" ==>
          ILike(db.recipes[k].title, Pattern(f.search)) || ILike(db.recipes[k].description, Pattern(f.search)))
  }

  /** One item of the `get_recipes` list. */
  datatype RecipeSummary = RecipeSummary(recipeId: int, title: string, description: string,
                                         imageUrl: Option<string>, author: string)

  /**
   * `get_recipes()`: one item per recipe that passes the filters, by
   * recipe id (neither the order nor repeats from the join are modelled);
   * `None` when such a recipe's author is gone, where `r.author.username` raises.
   */
  function GetRecipes(db: Db, f: Filters): (r: Option<map<int, RecipeSummary>>)
    ensures r.Some? <==> forall k :: k in db.recipes && Matches(db, k, f) ==> db.recipes[k].userId in db.users
    ensures r.Some? ==> forall k :: k in r.value <==> k in db.recipes && Matches(db, k, f)
    ensures r.Some? ==> forall k :: k in r.value ==>
      var x := db.recipes[k];
      r.value[k] == RecipeSummary(k, x.title, x.description, x.imageUrl, db.users[x.userId].username)
  {
    if forall k :: k in db.recipes && Matches(db, k, f) ==> db.recipes[k].userId in db.users then
      Some(map k | k in db.recipes && Matches(db, k, f) ::
        RecipeSummary(k, db.recipes[k].title, db.recipes[k].description, db.recipes[k].imageUrl,
                      db.users[db.recipes[k].userId].username))
    else None
  }

  /** Under referential integrity `get_recipes` always answers. */
  lemma GetRecipesAnswers(db: Db, f: Filters)
    requires RefIntegrity(db)
    ensures GetRecipes(db, f).Some?
  {
    assert RefsIn(db.recipes, (x: Recipe) => x.userId, db.users.Keys);
  }

  /** The filters are a conjunction: what passes all of them is what passes each one on its own. */
  lemma FiltersConjoin(db: Db, f: Filters, k: int)
    requires RefIntegrity(db)
    ensures var all, c, d, q := GetRecipes(db, f), GetRecipes(db, Filters(f.category, None, "")),
      GetRecipes(db, Filters(None, f.dietary, "")), GetRecipes(db, Filters(None, None, f.search));
      all.Some? && c.Some? && d.Some? && q.Some? &&
      (k in all.value <==> k in c.value && k in d.value && k in q.value)
  {
    GetRecipesAnswers(db, f);
    GetRecipesAnswers(db, Filters(f.category, None, ""));
    GetRecipesAnswers(db, Filters(None, f.dietary, ""));
    GetRecipesAnswers(db, Filters(None, None, f.search));
  }

  /** With no filter applied (missing, 0 or '') every recipe is listed. */
  lemma NoFilterListsAll(db: Db, category: Option<int>, dietary: Option<int>)
    requires RefIntegrity(db)
    requires !Active(category) && !Active(dietary)
    ensures var r := GetRecipes(db, Filters(category, dietary, ""));
      r.Some? && r.value.Keys == db.recipes.Keys
  {
    GetRecipesAnswers(db, Filters(category, dietary, ""));
  }

  /**
   * A search text without LIKE wildcards or backslashes finds exactly the
   * recipes whose title or description contains it, ignoring case.
   */
  lemma PlainSearchIsSubstring(db: Db, search: string, k: int)
    requires RefIntegrity(db) && Plain(search) && search != "" && k in db.recipes
    ensures var r := GetRecipes(db, Filters(None, None, search));
      r.Some? && (k in r.value <==>
        Contains(Lower(db.recipes[k].title), Lower(search)) ||
        Contains(Lower(db.recipes[k].description), Lower(search)))
  {
    GetRecipesAnswers(db, Filters(None, None, search));
    ILikeSubstring(db.recipes[k].title, search);
    ILikeSubstring(db.recipes[k].description, search);
  }

  // ----------------------------------------------------------------- detail

  /** What a read answers: the object, 404, or an exception (500). */
  datatype Answer<T> = Found(value: T) | Missing | Fails

  /** One item of `ingredients` in the detail view; `quantity` in hundredths. */
  datatype IngredientLine = IngredientLine(ingredientId: int, name: string, quantity: int, unit: string)

  /** The `category` object of the detail view. */
  datatype CategoryRef = CategoryRef(categoryId: int, name: string)

  /** The detail view of `get_recipe`, with the rating figures before `round(…, 1)`. */
  datatype RecipeDetail = RecipeDetail(
    recipeId: int,
    recipe: Recipe,
    authorId: int,
    authorName: string,
    category: Option<CategoryRef>,
    ingredients: map<int, IngredientLine>,
    dietaryRestrictions: map<int, DietaryRestriction>,
    ratings: RatingRoutes.Summary)

  /** The recipe's ingredient links all name an existing ingredient. */
  predicate LinksResolve(db: Db, rid: int)
  {
    forall l :: l in db.recipeIngredients && db.recipeIngredients[l].recipeId == rid ==>
      db.recipeIngredients[l].ingredientId in db.ingredients
  }

  /**
   * `get_recipe(rid)`: 404 for an unknown id; the author, the category
   * when there is one, each ingredient link with its ingredient, the
   * restrictions reached through the link table and the rating figures.
   * A missing author or ingredient makes the attribute access raise.
   */
  ghost function GetRecipe(db: Db, rid: int): (r: Answer<RecipeDetail>)
    ensures r.Missing? <==> rid !in db.recipes
    ensures r.Found? <==> rid in db.recipes && db.recipes[rid].userId in db.users && LinksResolve(db, rid)
    ensures r.Found? ==>
      && r.value.recipeId == rid && r.value.recipe == db.recipes[rid]
      && r.value.authorId == db.recipes[rid].userId
      && r.value.authorName == db.users[db.recipes[rid].userId].username
      && r.value.dietaryRestrictions == RestrictionsOf(db, rid)
      && r.value.ratings.count == |RatingRoutes.RatingsOf(db.ratings, rid)|
      && (r.value.ratings.count == 0 ==> r.value.ratings.Average() == 0.0)
    ensures r.Found? ==> forall l :: l in r.value.ingredients <==>
      l in db.recipeIngredients && db.recipeIngredients[l].recipeId == rid
    ensures r.Found? ==> (r.value.category.Some? <==>
      db.recipes[rid].categoryId.Some? && db.recipes[rid].categoryId.value in db.categories)
    ensures r.Found? && r.value.category.Some? ==>
      var c := db.recipes[rid].categoryId.value;
      r.value.category.value == CategoryRef(c, db.categories[c].name)
    ensures r.Found? ==> forall l :: l in r.value.ingredients ==>
      var x := db.recipeIngredients[l];
      r.value.ingredients[l] == IngredientLine(x.ingredientId, db.ingredients[x.ingredientId].name, x.quantity, x.unit)
    ensures r.Found? ==> r.value.ratings == RatingRoutes.GetRatings(db, rid)
  {
    if rid !in db.recipes then Missing
    else
      var x := db.recipes[rid];
      if x.userId !in db.users || !LinksResolve(db, rid) then Fails
      else
        Found(RecipeDetail(
          rid, x, x.userId, db.users[x.userId].username,
          if x.categoryId.Some? && x.categoryId.value in db.categories
          then Some(CategoryRef(x.categoryId.value, db.categories[x.categoryId.value].name)) else None,
          map l | l in db.recipeIngredients && db.recipeIngredients[l].recipeId == rid ::
            IngredientLine(db.recipeIngredients[l].ingredientId,
                           db.ingredients[db.recipeIngredients[l].ingredientId].name,
                           db.recipeIngredients[l].quantity, db.recipeIngredients[l].unit),
          RestrictionsOf(db, rid),
          RatingRoutes.GetRatings(db, rid)))
  }

  /** In a consistent database an existing recipe always has its detail view. */
  lemma GetRecipeAnswers(db: Db, rid: int)
    requires Consistent(db) && rid in db.recipes
    ensures GetRecipe(db, rid).Found?
  {
    assert RefsIn(db.recipes, (x: Recipe) => x.userId, db.users.Keys);
    assert RefsIn(db.recipeIngredients, (l: RecipeIngredient) => l.ingredientId, db.ingredients.Keys);
  }

  /** A recipe nobody has rated shows 0 ratings and an average of 0. */
  lemma UnratedRecipe(db: Db, rid: int)
    requires Consistent(db) && rid in db.recipes
    requires forall k :: k in db.ratings ==> db.ratings[k].recipeId != rid
    ensures var r := GetRecipe(db, rid);
      r.Found? && r.value.ratings.count == 0 && r.value.ratings.Average() == 0.0
  {
    GetRecipeAnswers(db, rid);
    assert RatingRoutes.RatingsOf(db.ratings, rid) == {};
  }

  // ----------------------------------------------------------------- create

  /**
   * The `Recipe(...)` that `create_recipe` builds: `data['title']`,
   * `['description']`, `['instructions']` and `['category_id']` must be
   * there (KeyError otherwise), the four optional columns are `None` when
   * absent, the owner is the caller; `None` also when a value does not
   * fit its column, so that the commit refuses it.
   */
  function NewRow(identity: int, data: Payload, now: Timestamp): (r: Option<Recipe>)
    ensures r.Some? <==>
      && "title" in data && "description" in data && "instructions" in data && "category_id" in data
      && AsVarchar(data["title"], TITLE_MAX).Some? && AsText(data["description"]).Some? && AsText(data["instructions"]).Some?
      && AsNullableInt(data["category_id"]).Some?
      && AsNullableText(Get(data, "image_url")).Some?
      && AsNullableInt(Get(data, "prep_time")).Some?
      && AsNullableInt(Get(data, "cook_time")).Some?
      && AsNullableInt(Get(data, "servings")).Some?
    ensures r.Some? ==>
      && r.value.userId == identity
      && Some(r.value.title) == AsVarchar(data["title"], TITLE_MAX) && Some(r.value.description) == AsText(data["description"])
      && Some(r.value.instructions) == AsText(data["instructions"])
      && r.value.categoryId == AsNullableInt(data["category_id"]).value
      && r.value.createdAt == now && r.value.updatedAt == now
    ensures r.Some? ==>
      && ("image_url" !in data ==> r.value.imageUrl == None)
      && ("prep_time" !in data ==> r.value.prepTime == None)
      && ("cook_time" !in data ==> r.value.cookTime == None)
      && ("servings" !in data ==> r.value.servings == None)
    ensures r.Some? ==>
      && Some(r.value.imageUrl) == AsNullableText(Get(data, "image_url"))
      && Some(r.value.prepTime) == AsNullableInt(Get(data, "prep_time"))
      && Some(r.value.cookTime) == AsNullableInt(Get(data, "cook_time"))
      && Some(r.value.servings) == AsNullableInt(Get(data, "servings"))
  {
    if !("title" in data && "description" in data && "instructions" in data && "category_id" in data) then None
    else
      var title := AsVarchar(data["title"], TITLE_MAX);
      var description := AsText(data["description"]);
      var instructions := AsText(data["instructions"]);
      var category := AsNullableInt(data["category_id"]);
      var image := AsNullableText(Get(data, "image_url"));
      var prep := AsNullableInt(Get(data, "prep_time"));
      var cook := AsNullableInt(Get(data, "cook_time"));
      var servings := AsNullableInt(Get(data, "servings"));
      if title.None? || description.None? || instructions.None? || category.None? || image.None? ||
         prep.None? || cook.None? || servings.None?
      then None
      else
        Some(NewRecipe(identity, title.value, description.value, instructions.value, category.value,
                       image.value, prep.value, cook.value, servings.value, now))
  }

  /** `data.get(key, [])` as the `for` loop sees it: absent is empty, a non-iterable value is `None`. */
  function ListField(data: Payload, key: string): (r: Option<seq<Value>>)
    ensures key !in data ==> r == Some([])
    ensures key in data ==> r == Elements(data[key])
  {
    if key in data then Elements(data[key]) else Some([])
  }

  /**
   * The `RecipeIngredient` built from one element of `ingredients`, if
   * it can be committed: the element is an object with `ingredient_id`,
   * `quantity` and `unit` (else `ing[...]` raises), naming an existing
   * ingredient, with a quantity and a unit that fit their columns.
   */
  function IngredientLink(ingredients: map<int, Ingredient>, rid: int, v: Value): (l: Option<RecipeIngredient>)
    ensures l.Some? <==>
      && v.Obj? && "ingredient_id" in v.fields && "quantity" in v.fields && "unit" in v.fields
      && AsColumnInt(v.fields["ingredient_id"]).Some? && AsColumnInt(v.fields["ingredient_id"]).value in ingredients
      && AsHundredths(v.fields["quantity"]).Some?
      && -QUANTITY_LIMIT < AsHundredths(v.fields["quantity"]).value < QUANTITY_LIMIT
      && AsVarchar(v.fields["unit"], UNIT_MAX).Some?
    ensures l.Some? ==>
      && v.Obj? && "ingredient_id" in v.fields && "quantity" in v.fields && "unit" in v.fields
      && l.value.recipeId == rid
      && Some(l.value.ingredientId) == AsColumnInt(v.fields["ingredient_id"])
      && Some(l.value.quantity) == AsHundredths(v.fields["quantity"])
      && Some(l.value.unit) == AsVarchar(v.fields["unit"], UNIT_MAX)
      && l.value.ingredientId in ingredients && l.value.WellFormed()
  {
    if v.Obj? && "ingredient_id" in v.fields && "quantity" in v.fields && "unit" in v.fields then
      var id := AsColumnInt(v.fields["ingredient_id"]);
      var quantity := AsHundredths(v.fields["quantity"]);
      var unit := AsVarchar(v.fields["unit"], UNIT_MAX);
      if id.Some? && quantity.Some? && unit.Some? && id.value in ingredients then
        var l := RecipeIngredient(rid, id.value, quantity.value, unit.value);
        if l.WellFormed() then Some(l) else None
      else None
    else None
  }

  /** The link rows for all elements, one per element in order, or `None` if any element fails. */
  function IngredientLinks(ingredients: map<int, Ingredient>, rid: int, elems: seq<Value>): (r: Option<seq<RecipeIngredient>>)
    ensures r.Some? <==> forall i :: 0 <= i < |elems| ==> IngredientLink(ingredients, rid, elems[i]).Some?
    ensures r.Some? ==> |r.value| == |elems|
    ensures r.Some? ==> forall i :: 0 <= i < |elems| ==> r.value[i] == IngredientLink(ingredients, rid, elems[i]).value
    decreases |elems|
  {
    if |elems| == 0 then Some([])
    else
      var front := elems[..|elems| - 1];
      assert forall i :: 0 <= i < |front| ==> front[i] == elems[i];
      match IngredientLinks(ingredients, rid, front)
      case None => None
      case Some(ls) =>
        match IngredientLink(ingredients, rid, elems[|elems| - 1])
        case None => None
        case Some(l) => Some(ls + [l])
  }

  /** The `RecipeDietaryRestriction` built from one element of `dietary_restrictions`, if it can be committed. */
  function DietaryLink(restrictions: map<int, DietaryRestriction>, rid: int, v: Value): (l: Option<RecipeDietaryRestriction>)
    ensures l.Some? <==> AsColumnInt(v).Some? && AsColumnInt(v).value in restrictions
    ensures l.Some? ==> l.value == RecipeDietaryRestriction(rid, AsColumnInt(v).value)
  {
    var id := AsColumnInt(v);
    if id.Some? && id.value in restrictions then Some(RecipeDietaryRestriction(rid, id.value)) else None
  }

  function DietaryLinks(restrictions: map<int, DietaryRestriction>, rid: int, elems: seq<Value>): (r: Option<seq<RecipeDietaryRestriction>>)
    ensures r.Some? <==> forall i :: 0 <= i < |elems| ==> DietaryLink(restrictions, rid, elems[i]).Some?
    ensures r.Some? ==> |r.value| == |elems|
    ensures r.Some? ==> forall i :: 0 <= i < |elems| ==> r.value[i] == DietaryLink(restrictions, rid, elems[i]).value
    decreases |elems|
  {
    if |elems| == 0 then Some([])
    else
      var front := elems[..|elems| - 1];
      assert forall i :: 0 <= i < |front| ==> front[i] == elems[i];
      match DietaryLinks(restrictions, rid, front)
      case None => None
      case Some(ls) =>
        match DietaryLink(restrictions, rid, elems[|elems| - 1])
        case None => None
        case Some(l) => Some(ls + [l])
  }

  /** The links a payload asks for: both loops must get through every element. */
  function Links(ingredients: map<int, Ingredient>, restrictions: map<int, DietaryRestriction>, rid: int, data: Payload):
    Option<(seq<RecipeIngredient>, seq<RecipeDietaryRestriction>)>
  {
    var ingredientElems := ListField(data, "ingredients");
    var restrictionElems := ListField(data, "dietary_restrictions");
    if ingredientElems.None? || restrictionElems.None? then None
    else
      var ls := IngredientLinks(ingredients, rid, ingredientElems.value);
      var ds := DietaryLinks(restrictions, rid, restrictionElems.value);
      if ls.None? || ds.None? then None else Some((ls.value, ds.value))
  }

  /** What `create_recipe` answers (with the new id on success) and the committed state. */
  datatype Creation = Creation(step: Step, recipeId: Option<int>)

  /**
   * `create_recipe()` once the `Recipe(...)` has been built (`row`, see
   * `NewRow`): the recipe row is committed on its own first (500 and
   * nothing stored if it cannot be); then the link rows are added and
   * committed together, so a failure there answers 500 but leaves the
   * recipe stored without links.
   */
  function CreateRecipeStep(db: Db, seqs: Sequences, row: Option<Recipe>, data: Payload): (r: Creation)
    ensures row.None? || !Storable(db, row.value) ==> r == Creation(Step(ServerError, db, seqs), None)
    ensures r.step.reply.code == CREATED <==>
      row.Some? && Storable(db, row.value) && Links(db.ingredients, db.dietaryRestrictions, seqs.recipes, data).Some?
    ensures r.step.reply.code == CREATED <==> r.recipeId == Some(seqs.recipes)
    ensures r.step.reply.code != CREATED ==> r.step.reply == ServerError && r.recipeId == None
    ensures row.Some? && Storable(db, row.value) ==>
      r.step.db.recipes == db.recipes[seqs.recipes := row.value] && r.step.seqs.recipes == seqs.recipes + 1
    ensures r.step.db.users == db.users && r.step.db.categories == db.categories
    ensures r.step.db.ingredients == db.ingredients && r.step.db.dietaryRestrictions == db.dietaryRestrictions
    ensures r.step.db.ratings == db.ratings && r.step.db.comments == db.comments && r.step.db.favorites == db.favorites
    ensures r.step.reply.code != CREATED ==>
      r.step.db.recipeIngredients == db.recipeIngredients &&
      r.step.db.recipeDietaryRestrictions == db.recipeDietaryRestrictions
    ensures r.step.reply.code == CREATED ==>
      var links := Links(db.ingredients, db.dietaryRestrictions, seqs.recipes, data).value;
      && r.step.db.recipeIngredients == InsertAll(db.recipeIngredients, seqs.recipeIngredients, links.0)
      && r.step.db.recipeDietaryRestrictions == InsertAll(db.recipeDietaryRestrictions, seqs.recipeDietaryRestrictions, links.1)
      && r.step.seqs.recipeIngredients == seqs.recipeIngredients + |links.0|
      && r.step.seqs.recipeDietaryRestrictions == seqs.recipeDietaryRestrictions + |links.1|
  {
    if row.None? || !Storable(db, row.value) then Creation(Step(ServerError, db, seqs), None)
    else
      var rid := seqs.recipes;
      var db1 := db.(recipes := db.recipes[rid := row.value]);
      var seqs1 := seqs.(recipes := rid + 1);
      match Links(db.ingredients, db.dietaryRestrictions, rid, data)
      case None => Creation(Step(ServerError, db1, seqs1), None)
      case Some(links) =>
        Creation(Step(Reply(CREATED, CREATED_MSG),
          db1.(recipeIngredients := InsertAll(db.recipeIngredients, seqs.recipeIngredients, links.0),
               recipeDietaryRestrictions := InsertAll(db.recipeDietaryRestrictions, seqs.recipeDietaryRestrictions, links.1)),
          seqs1.(recipeIngredients := seqs.recipeIngredients + |links.0|,
                 recipeDietaryRestrictions := seqs.recipeDietaryRestrictions + |links.1|)), Some(rid))
  }

  /** The `for ing in data.get('ingredients', [])` loop: one pending link per element, stopping at the first failure. */
  method CollectIngredientLinks(ingredients: map<int, Ingredient>, rid: int, elems: seq<Value>)
    returns (links: Option<seq<RecipeIngredient>>)
    ensures links == IngredientLinks(ingredients, rid, elems)
  {
    var pending: seq<RecipeIngredient> := [];
    for i := 0 to |elems|
      invariant IngredientLinks(ingredients, rid, elems[..i]) == Some(pending)
    {
      assert elems[..i + 1][..i] == elems[..i];
      var l := IngredientLink(ingredients, rid, elems[i]);
      if l.None? {
        assert IngredientLink(ingredients, rid, elems[..i + 1][i]).None?;
        assert IngredientLinks(ingredients, rid, elems).None?;
        return None;
      }
      pending := pending + [l.value];
    }
    assert elems[..|elems|] == elems;
    links := Some(pending);
  }

  /** The `for dr_id in data.get('dietary_restrictions', [])` loop. */
  method CollectDietaryLinks(restrictions: map<int, DietaryRestriction>, rid: int, elems: seq<Value>)
    returns (links: Option<seq<RecipeDietaryRestriction>>)
    ensures links == DietaryLinks(restrictions, rid, elems)
  {
    var pending: seq<RecipeDietaryRestriction> := [];
    for i := 0 to |elems|
      invariant DietaryLinks(restrictions, rid, elems[..i]) == Some(pending)
    {
      assert elems[..i + 1][..i] == elems[..i];
      var l := DietaryLink(restrictions, rid, elems[i]);
      if l.None? {
        assert DietaryLink(restrictions, rid, elems[..i + 1][i]).None?;
        assert DietaryLinks(restrictions, rid, elems).None?;
        return None;
      }
      pending := pending + [l.value];
    }
    assert elems[..|elems|] == elems;
    links := Some(pending);
  }

  /** The route: build the row, commit it, run both loops, commit the links. */
  method CreateRecipe(s: Store, identity: int, data: Payload, now: Timestamp) returns (reply: Reply, recipeId: Option<int>)
    requires s.Valid()
    modifies s
    ensures s.Valid()
    ensures var r := CreateRecipeStep(old(s.Tables()), old(s.seqs), NewRow(identity, data, now), data);
      reply == r.step.reply && recipeId == r.recipeId && s.Tables() == r.step.db && s.seqs == r.step.seqs
  {
    var row := NewRow(identity, data, now);
    if row.None? || !Storable(s.Tables(), row.value) {
      return ServerError, None;
    }
    reply, recipeId := CreateFromRow(s, row.value, data);
  }

  /** `create_recipe` from the `Recipe(...)` on: the two commits. */
  method CreateFromRow(s: Store, x: Recipe, data: Payload) returns (reply: Reply, recipeId: Option<int>)
    requires s.Valid() && Storable(s.Tables(), x)
    modifies s
    ensures s.Valid()
    ensures var r := CreateRecipeStep(old(s.Tables()), old(s.seqs), Some(x), data);
      reply == r.step.reply && recipeId == r.recipeId && s.Tables() == r.step.db && s.seqs == r.step.seqs
  {
    ghost var db, seqs := s.Tables(), s.seqs;
    var rid := CommitRecipe(s, x);
    var links := CollectLinks(s.ingredients, s.dietaryRestrictions, rid, data);
    if links.None? {
      FailedLinksKeepRecipe(db, seqs, Some(x), data);
      return ServerError, None;
    }
    var (ls, ds) := links.value;
    LinksFit(s.ingredients, s.dietaryRestrictions, rid, data);
    ghost var seqs1 := s.seqs;
    assert seqs1 == seqs.(recipes := seqs.recipes + 1);
    CommitLinks(s, rid, ls, ds);
    reply, recipeId := Reply(CREATED, CREATED_MSG), Some(rid);
    CreatedState(db, seqs, x, data, ls, ds);
    assert s.seqs == seqs1.(recipeIngredients := seqs1.recipeIngredients + |ls|,
                            recipeDietaryRestrictions := seqs1.recipeDietaryRestrictions + |ds|);
  }

  /** The state `create_recipe` commits when every link can be made. */
  lemma CreatedState(db: Db, seqs: Sequences, x: Recipe, data: Payload, ls: seq<RecipeIngredient>, ds: seq<RecipeDietaryRestriction>)
    requires Storable(db, x) && Links(db.ingredients, db.dietaryRestrictions, seqs.recipes, data) == Some((ls, ds))
    ensures var db1, seqs1 := db.(recipes := db.recipes[seqs.recipes := x]), seqs.(recipes := seqs.recipes + 1);
      CreateRecipeStep(db, seqs, Some(x), data) ==
      Creation(Step(Reply(CREATED, CREATED_MSG),
        db1.(recipeIngredients := InsertAll(db1.recipeIngredients, seqs1.recipeIngredients, ls),
             recipeDietaryRestrictions := InsertAll(db1.recipeDietaryRestrictions, seqs1.recipeDietaryRestrictions, ds)),
        seqs1.(recipeIngredients := seqs1.recipeIngredients + |ls|,
               recipeDietaryRestrictions := seqs1.recipeDietaryRestrictions + |ds|)), Some(seqs.recipes))
  {
  }

  /** The first commit of `create_recipe`: the recipe row under the next id. */
  method CommitRecipe(s: Store, x: Recipe) returns (rid: int)
    requires s.Valid() && Storable(s.Tables(), x)
    modifies s
    ensures s.Valid()
    ensures rid == old(s.seqs.recipes) && rid !in old(s.recipes)
    ensures s.Tables() == old(s.Tables()).(recipes := old(s.recipes)[rid := x])
    ensures s.seqs == old(s.seqs).(recipes := rid + 1)
  {
    ghost var db, seqs := s.Tables(), s.seqs;
    rid := s.seqs.recipes;
    s.recipes := s.recipes[rid := x];
    s.seqs := s.seqs.(recipes := rid + 1);
    RecipeInsertKeepsValid(db, seqs, x);
  }

  /** The link rows `Links` yields for recipe `rid` refer to it and to live rows, and fit their columns. */
  lemma LinksFit(ingredients: map<int, Ingredient>, restrictions: map<int, DietaryRestriction>, rid: int, data: Payload)
    requires Links(ingredients, restrictions, rid, data).Some?
    ensures var (ls, ds) := Links(ingredients, restrictions, rid, data).value;
      && (forall i :: 0 <= i < |ls| ==> ls[i].recipeId == rid && ls[i].ingredientId in ingredients && ls[i].WellFormed())
      && (forall i :: 0 <= i < |ds| ==> ds[i].recipeId == rid && ds[i].dietaryRestrictionId in restrictions)
  {
  }

  /** The second commit of `create_recipe`: the link rows under the next ids. */
  method CommitLinks(s: Store, rid: int, ls: seq<RecipeIngredient>, ds: seq<RecipeDietaryRestriction>)
    requires s.Valid() && rid in s.recipes
    requires forall i :: 0 <= i < |ls| ==> ls[i].recipeId == rid && ls[i].ingredientId in s.ingredients && ls[i].WellFormed()
    requires forall i :: 0 <= i < |ds| ==> ds[i].recipeId == rid && ds[i].dietaryRestrictionId in s.dietaryRestrictions
    modifies s
    ensures s.Valid()
    ensures s.Tables() == old(s.Tables()).(
      recipeIngredients := InsertAll(old(s.recipeIngredients), old(s.seqs.recipeIngredients), ls),
      recipeDietaryRestrictions := InsertAll(old(s.recipeDietaryRestrictions), old(s.seqs.recipeDietaryRestrictions), ds))
    ensures s.seqs == old(s.seqs).(recipeIngredients := old(s.seqs.recipeIngredients) + |ls|,
                                   recipeDietaryRestrictions := old(s.seqs.recipeDietaryRestrictions) + |ds|)
  {
    ghost var db, seqs := s.Tables(), s.seqs;
    s.recipeIngredients := InsertAll(s.recipeIngredients, s.seqs.recipeIngredients, ls);
    s.recipeDietaryRestrictions := InsertAll(s.recipeDietaryRestrictions, s.seqs.recipeDietaryRestrictions, ds);
    s.seqs := s.seqs.(recipeIngredients := s.seqs.recipeIngredients + |ls|,
                      recipeDietaryRestrictions := s.seqs.recipeDietaryRestrictions + |ds|);
    LinksInsertKeepValid(db, seqs, rid, ls, ds);
  }

  /** Whatever `create_recipe` answers, the committed state stays consistent with its counters ahead. */
  lemma CreateRecipeKeepsValid(db: Db, seqs: Sequences, row: Option<Recipe>, data: Payload)
    requires Consistent(db) && Ahead(db, seqs)
    ensures var r := CreateRecipeStep(db, seqs, row, data);
      Consistent(r.step.db) && Ahead(r.step.db, r.step.seqs)
  {
    if row.Some? && Storable(db, row.value) {
      RecipeInsertKeepsValid(db, seqs, row.value);
      if Links(db.ingredients, db.dietaryRestrictions, seqs.recipes, data).Some? {
        CreatedKeepsValid(db, seqs, row.value, data);
      }
    }
  }

  lemma CreatedKeepsValid(db: Db, seqs: Sequences, x: Recipe, data: Payload)
    requires Consistent(db) && Ahead(db, seqs) && Storable(db, x)
    requires Links(db.ingredients, db.dietaryRestrictions, seqs.recipes, data).Some?
    ensures var r := CreateRecipeStep(db, seqs, Some(x), data);
      Consistent(r.step.db) && Ahead(r.step.db, r.step.seqs)
  {
    var r := CreateRecipeStep(db, seqs, Some(x), data);
    var rid := seqs.recipes;
    var db1, seqs1 := db.(recipes := db.recipes[rid := x]), seqs.(recipes := rid + 1);
    RecipeInsertKeepsValid(db, seqs, x);
    var (ls, ds) := Links(db.ingredients, db.dietaryRestrictions, rid, data).value;
    LinksInsertKeepValid(db1, seqs1, rid, ls, ds);
    assert r.step.db == db1.(recipeIngredients := InsertAll(db1.recipeIngredients, seqs1.recipeIngredients, ls),
                             recipeDietaryRestrictions := InsertAll(db1.recipeDietaryRestrictions, seqs1.recipeDietaryRestrictions, ds));
  }

  /** Both loops of `create_recipe`, over `data.get('ingredients', [])` and `data.get('dietary_restrictions', [])`. */
  method CollectLinks(ingredients: map<int, Ingredient>, restrictions: map<int, DietaryRestriction>, rid: int, data: Payload)
    returns (links: Option<(seq<RecipeIngredient>, seq<RecipeDietaryRestriction>)>)
    ensures links == Links(ingredients, restrictions, rid, data)
  {
    var ingredientElems := ListField(data, "ingredients");
    if ingredientElems.None? {
      return None;
    }
    var ls := CollectIngredientLinks(ingredients, rid, ingredientElems.value);
    if ls.None? {
      return None;
    }
    var restrictionElems := ListField(data, "dietary_restrictions");
    if restrictionElems.None? {
      return None;
    }
    var ds := CollectDietaryLinks(restrictions, rid, restrictionElems.value);
    if ds.None? {
      return None;
    }
    links := Some((ls.value, ds.value));
  }

  /** Committing the new recipe under the next id keeps the store valid. */
  lemma RecipeInsertKeepsValid(db: Db, seqs: Sequences, x: Recipe)
    requires Consistent(db) && Ahead(db, seqs) && Storable(db, x)
    ensures Consistent(db.(recipes := db.recipes[seqs.recipes := x]))
    ensures Ahead(db.(recipes := db.recipes[seqs.recipes := x]), seqs.(recipes := seqs.recipes + 1))
  {
    WithRecipe(db, seqs.recipes, x);
  }

  /** Committing the link rows of recipe `rid` under the next ids keeps the store valid. */
  lemma LinksInsertKeepValid(db: Db, seqs: Sequences, rid: int, ls: seq<RecipeIngredient>, ds: seq<RecipeDietaryRestriction>)
    requires Consistent(db) && Ahead(db, seqs) && rid in db.recipes
    requires forall i :: 0 <= i < |ls| ==> ls[i].recipeId == rid && ls[i].ingredientId in db.ingredients && ls[i].WellFormed()
    requires forall i :: 0 <= i < |ds| ==> ds[i].recipeId == rid && ds[i].dietaryRestrictionId in db.dietaryRestrictions
    ensures var d := db.(recipeIngredients := InsertAll(db.recipeIngredients, seqs.recipeIngredients, ls),
                         recipeDietaryRestrictions := InsertAll(db.recipeDietaryRestrictions, seqs.recipeDietaryRestrictions, ds));
      Consistent(d) &&
      Ahead(d, seqs.(recipeIngredients := seqs.recipeIngredients + |ls|,
                     recipeDietaryRestrictions := seqs.recipeDietaryRestrictions + |ds|))
  {
    WithIngredientLinks(db, seqs.recipeIngredients, ls);
    var d1 := db.(recipeIngredients := InsertAll(db.recipeIngredients, seqs.recipeIngredients, ls));
    WithDietaryLinks(d1, seqs.recipeDietaryRestrictions, ds);
  }

  /**
   * A created recipe has exactly one ingredient link per element of
   * `ingredients` and one restriction link per element of
   * `dietary_restrictions`, under fresh ids, all pointing at the new recipe,
   * whose owner is the caller.
   */
  lemma CreatedLinks(db: Db, seqs: Sequences, identity: int, data: Payload, now: Timestamp)
    requires Ahead(db, seqs)
    requires CreateRecipeStep(db, seqs, NewRow(identity, data, now), data).step.reply.code == CREATED
    ensures var r := CreateRecipeStep(db, seqs, NewRow(identity, data, now), data);
      var rid := r.recipeId.value;
      && rid == seqs.recipes && rid !in db.recipes && rid in r.step.db.recipes
      && r.step.db.recipes[rid].userId == identity
      && |r.step.db.recipeIngredients| == |db.recipeIngredients| + |ListField(data, "ingredients").value|
      && |r.step.db.recipeDietaryRestrictions| == |db.recipeDietaryRestrictions| + |ListField(data, "dietary_restrictions").value|
      && (forall k :: k in r.step.db.recipeIngredients && k !in db.recipeIngredients ==>
            r.step.db.recipeIngredients[k].recipeId == rid)
      && (forall k :: k in r.step.db.recipeDietaryRestrictions && k !in db.recipeDietaryRestrictions ==>
            r.step.db.recipeDietaryRestrictions[k].recipeId == rid)
  {
    var rid := seqs.recipes;
    var links := Links(db.ingredients, db.dietaryRestrictions, rid, data).value;
    NewIngredientLinks(db.recipeIngredients, seqs.recipeIngredients, links.0, rid);
    NewDietaryLinks(db.recipeDietaryRestrictions, seqs.recipeDietaryRestrictions, links.1, rid);
    InsertAllSize(db.recipeIngredients, seqs.recipeIngredients, links.0);
    InsertAllSize(db.recipeDietaryRestrictions, seqs.recipeDietaryRestrictions, links.1);
  }

  /** Every link row added for recipe `rid` points at it. */
  lemma NewIngredientLinks(m: map<int, RecipeIngredient>, next: int, ls: seq<RecipeIngredient>, rid: int)
    requires forall i :: 0 <= i < |ls| ==> ls[i].recipeId == rid
    ensures forall k :: k in InsertAll(m, next, ls) && k !in m ==> InsertAll(m, next, ls)[k].recipeId == rid
  {
    var t := InsertAll(m, next, ls);
    forall k | k in t && k !in m
      ensures t[k].recipeId == rid
    {
      assert t[k] == ls[k - next];
    }
  }

  lemma NewDietaryLinks(m: map<int, RecipeDietaryRestriction>, next: int, ls: seq<RecipeDietaryRestriction>, rid: int)
    requires forall i :: 0 <= i < |ls| ==> ls[i].recipeId == rid
    ensures forall k :: k in InsertAll(m, next, ls) && k !in m ==> InsertAll(m, next, ls)[k].recipeId == rid
  {
    var t := InsertAll(m, next, ls);
    forall k | k in t && k !in m
      ensures t[k].recipeId == rid
    {
      assert t[k] == ls[k - next];
    }
  }

  /** A link that fails leaves the recipe committed, with none of the links. */
  lemma FailedLinksKeepRecipe(db: Db, seqs: Sequences, row: Option<Recipe>, data: Payload)
    requires row.Some? && Storable(db, row.value)
    requires Links(db.ingredients, db.dietaryRestrictions, seqs.recipes, data).None?
    ensures CreateRecipeStep(db, seqs, row, data) ==
      Creation(Step(ServerError, db.(recipes := db.recipes[seqs.recipes := row.value]), seqs.(recipes := seqs.recipes + 1)), None)
  {
  }

  // ----------------------------------------------------------------- update

  /** The columns `update_recipe` will copy from the payload. */
  datatype RecipeColumn =
    | Title | Description | Instructions | CategoryId | ImageUrl | PrepTime | CookTime | Servings

  /** The payload key, which is also the attribute `setattr` writes. */
  function Key(c: RecipeColumn): string
  {
    match c
    case Title => "title"
    case Description => "description"
    case Instructions => "instructions"
    case CategoryId => "category_id"
    case ImageUrl => "image_url"
    case PrepTime => "prep_time"
    case CookTime => "cook_time"
    case Servings => "servings"
  }

  /** The whitelist of `update_recipe`, in its order. */
  const WHITELIST: seq<RecipeColumn> :=
    [Title, Description, Instructions, CategoryId, ImageUrl, PrepTime, CookTime, Servings]

  /**
   * Python's `value == loaded.<column>`, the test SQLAlchemy makes before
   * flushing: an attribute set to a value equal to the loaded one has no
   * net change and is not written (`True == 1`, `3.0 == 3`, `5 != '5'`).
   */
  predicate SameAsLoaded(loaded: Recipe, c: RecipeColumn, v: Value)
  {
    match c
    case Title => SameText(v, Some(loaded.title))
    case Description => SameText(v, Some(loaded.description))
    case Instructions => SameText(v, Some(loaded.instructions))
    case ImageUrl => SameText(v, loaded.imageUrl)
    case CategoryId => SameInt(v, loaded.categoryId)
    case PrepTime => SameInt(v, loaded.prepTime)
    case CookTime => SameInt(v, loaded.cookTime)
    case Servings => SameInt(v, loaded.servings)
  }

  /** The payload names column `c` with a value that differs from the loaded one, so the UPDATE will write it. */
  predicate Changes(loaded: Recipe, data: Payload, c: RecipeColumn)
  {
    Key(c) in data && !SameAsLoaded(loaded, c, data[Key(c)])
  }

  /**
   * `setattr(recipe, key, value)` for a whitelisted column over the row
   * `r` being built from `loaded`: with the value the column will store,
   * `r` itself when the value equals the loaded one, and `None` when the
   * commit will refuse the value.
   */
  function SetRecipeColumn(loaded: Recipe, r: Recipe, c: RecipeColumn, v: Value): Option<Recipe>
  {
    if SameAsLoaded(loaded, c, v) then Some(r)
    else
      match c
      case Title => if AsVarchar(v, TITLE_MAX).Some? then Some(r.(title := AsVarchar(v, TITLE_MAX).value)) else None
      case Description => if AsText(v).Some? then Some(r.(description := AsText(v).value)) else None
      case Instructions => if AsText(v).Some? then Some(r.(instructions := AsText(v).value)) else None
      case ImageUrl => if AsNullableText(v).Some? then Some(r.(imageUrl := AsNullableText(v).value)) else None
      case CategoryId => if AsNullableInt(v).Some? then Some(r.(categoryId := AsNullableInt(v).value)) else None
      case PrepTime => if AsNullableInt(v).Some? then Some(r.(prepTime := AsNullableInt(v).value)) else None
      case CookTime => if AsNullableInt(v).Some? then Some(r.(cookTime := AsNullableInt(v).value)) else None
      case Servings => if AsNullableInt(v).Some? then Some(r.(servings := AsNullableInt(v).value)) else None
  }

  /** One turn of the loop: the column is assigned when the payload names it and nothing before has failed. */
  function Next(loaded: Recipe, row: Option<Recipe>, data: Payload, c: RecipeColumn): Option<Recipe>
  {
    if row.None? then None else if Key(c) in data then SetRecipeColumn(loaded, row.value, c, data[Key(c)]) else row
  }

  /** The loop over `columns`, in order, starting from the loaded row `r`. */
  function ApplyColumns(r: Recipe, data: Payload, columns: seq<RecipeColumn>): Option<Recipe>
    decreases |columns|
  {
    if |columns| == 0 then Some(r)
    else Next(r, ApplyColumns(r, data, columns[..|columns| - 1]), data, columns[|columns| - 1])
  }

  /** Some column of `columns` will be written: the loop leaves an attribute with a net change. */
  predicate Writes(loaded: Recipe, data: Payload, columns: seq<RecipeColumn>)
    decreases |columns|
  {
    |columns| > 0 && (Writes(loaded, data, columns[..|columns| - 1]) || Changes(loaded, data, columns[|columns| - 1]))
  }

  /** `update_recipe` sends an UPDATE. */
  predicate Dirty(loaded: Recipe, data: Payload)
  {
    Writes(loaded, data, WHITELIST)
  }

  /** Every column the payload changes can hold its new value. */
  predicate ColumnsFit(r: Recipe, data: Payload)
  {
    && (Changes(r, data, Title) ==> AsVarchar(data["title"], TITLE_MAX).Some?)
    && (Changes(r, data, Description) ==> AsText(data["description"]).Some?)
    && (Changes(r, data, Instructions) ==> AsText(data["instructions"]).Some?)
    && (Changes(r, data, CategoryId) ==> AsNullableInt(data["category_id"]).Some?)
    && (Changes(r, data, ImageUrl) ==> AsNullableText(data["image_url"]).Some?)
    && (Changes(r, data, PrepTime) ==> AsNullableInt(data["prep_time"]).Some?)
    && (Changes(r, data, CookTime) ==> AsNullableInt(data["cook_time"]).Some?)
    && (Changes(r, data, Servings) ==> AsNullableInt(data["servings"]).Some?)
  }

  /** The row with exactly the changed whitelisted columns replaced by what they store, all else kept. */
  function Assigned(r: Recipe, data: Payload): Recipe
    requires ColumnsFit(r, data)
  {
    r.(title := if Changes(r, data, Title) then AsVarchar(data["title"], TITLE_MAX).value else r.title,
       description := if Changes(r, data, Description) then AsText(data["description"]).value else r.description,
       instructions := if Changes(r, data, Instructions) then AsText(data["instructions"]).value else r.instructions,
       categoryId := if Changes(r, data, CategoryId) then AsNullableInt(data["category_id"]).value else r.categoryId,
       imageUrl := if Changes(r, data, ImageUrl) then AsNullableText(data["image_url"]).value else r.imageUrl,
       prepTime := if Changes(r, data, PrepTime) then AsNullableInt(data["prep_time"]).value else r.prepTime,
       cookTime := if Changes(r, data, CookTime) then AsNullableInt(data["cook_time"]).value else r.cookTime,
       servings := if Changes(r, data, Servings) then AsNullableInt(data["servings"]).value else r.servings)
  }

  /**
   * The whitelist loop assigns exactly the changed columns: it succeeds
   * exactly when each of them fits, and then yields `Assigned`, so the
   * owner, the id and any other payload key are never written.
   */
  lemma WhitelistAssigns(r: Recipe, data: Payload)
    ensures ApplyColumns(r, data, WHITELIST).Some? <==> ColumnsFit(r, data)
    ensures ColumnsFit(r, data) ==> ApplyColumns(r, data, WHITELIST) == Some(Assigned(r, data))
  {
    WhitelistUnrolled(r, data);
    if ColumnsFit(r, data) {
      WhitelistValues(r, data);
    } else {
      WhitelistRefuses(r, data);
    }
  }

  lemma WhitelistValues(r: Recipe, data: Payload)
    requires ColumnsFit(r, data)
    ensures Next(r, Next(r, Next(r, Next(r, Next(r, Next(r, Next(r, Next(r, Some(r), data, Title), data, Description), data, Instructions),
        data, CategoryId), data, ImageUrl), data, PrepTime), data, CookTime), data, Servings) == Some(Assigned(r, data))
  {
    var r4 := r.(title := if Changes(r, data, Title) then AsVarchar(data["title"], TITLE_MAX).value else r.title,
                 description := if Changes(r, data, Description) then AsText(data["description"]).value else r.description,
                 instructions := if Changes(r, data, Instructions) then AsText(data["instructions"]).value else r.instructions,
                 categoryId := if Changes(r, data, CategoryId) then AsNullableInt(data["category_id"]).value else r.categoryId);
    assert Next(r, Next(r, Next(r, Next(r, Some(r), data, Title), data, Description), data, Instructions), data, CategoryId) == Some(r4);
  }

  lemma WhitelistRefuses(r: Recipe, data: Payload)
    requires !ColumnsFit(r, data)
    ensures Next(r, Next(r, Next(r, Next(r, Next(r, Next(r, Next(r, Next(r, Some(r), data, Title), data, Description), data, Instructions),
        data, CategoryId), data, ImageUrl), data, PrepTime), data, CookTime), data, Servings) == None
  {
  }

  /** The loop over the whitelist, one column at a time. */
  lemma WhitelistUnrolled(r: Recipe, data: Payload)
    ensures ApplyColumns(r, data, WHITELIST) ==
      Next(r, Next(r, Next(r, Next(r, Next(r, Next(r, Next(r, Next(r, Some(r), data, Title), data, Description), data, Instructions),
        data, CategoryId), data, ImageUrl), data, PrepTime), data, CookTime), data, Servings)
    ensures Dirty(r, data) <==>
      Changes(r, data, Title) || Changes(r, data, Description) || Changes(r, data, Instructions) ||
      Changes(r, data, CategoryId) || Changes(r, data, ImageUrl) || Changes(r, data, PrepTime) ||
      Changes(r, data, CookTime) || Changes(r, data, Servings)
  {
    var w := WHITELIST;
    assert w[..0] == [];
    ApplyColumnsStep(r, data, w, 0);
    ApplyColumnsStep(r, data, w, 1);
    ApplyColumnsStep(r, data, w, 2);
    ApplyColumnsStep(r, data, w, 3);
    ApplyColumnsStep(r, data, w, 4);
    ApplyColumnsStep(r, data, w, 5);
    ApplyColumnsStep(r, data, w, 6);
    ApplyColumnsStep(r, data, w, 7);
    assert w[..8] == w;
  }

  lemma ApplyColumnsStep(r: Recipe, data: Payload, columns: seq<RecipeColumn>, i: int)
    requires 0 <= i < |columns|
    ensures ApplyColumns(r, data, columns[..i + 1]) == Next(r, ApplyColumns(r, data, columns[..i]), data, columns[i])
    ensures Writes(r, data, columns[..i + 1]) == (Writes(r, data, columns[..i]) || Changes(r, data, columns[i]))
  {
    assert columns[..i + 1][..i] == columns[..i];
  }

  /** An UPDATE is sent exactly when some whitelisted column named in the payload differs from the loaded value. */
  lemma DirtyMeans(r: Recipe, data: Payload)
    ensures Dirty(r, data) <==> exists c :: Changes(r, data, c)
  {
    WhitelistUnrolled(r, data);
    if exists c :: Changes(r, data, c) {
      var c :| Changes(r, data, c);
      match c
      case Title =>
      case Description =>
      case Instructions =>
      case CategoryId =>
      case ImageUrl =>
      case PrepTime =>
      case CookTime =>
      case Servings =>
    }
  }

  /** A loop that changes no column leaves the loaded row as it was. */
  lemma {:induction false} ApplyColumnsKept(r: Recipe, data: Payload, columns: seq<RecipeColumn>)
    requires !Writes(r, data, columns)
    ensures ApplyColumns(r, data, columns) == Some(r)
    decreases |columns|
  {
    if |columns| > 0 {
      ApplyColumnsKept(r, data, columns[..|columns| - 1]);
    }
  }

  /**
   * What each named text column ends up holding: the given value as the
   * column stores it (a number's text), whether or not it is written.
   */
  lemma AssignedStoresText(r: Recipe, data: Payload)
    requires ColumnsFit(r, data)
    ensures "title" in data && |r.title| <= TITLE_MAX && '\0' !in r.title ==>
      Some(Assigned(r, data).title) == AsVarchar(data["title"], TITLE_MAX)
    ensures "description" in data && '\0' !in r.description ==>
      Some(Assigned(r, data).description) == AsText(data["description"])
    ensures "instructions" in data && '\0' !in r.instructions ==>
      Some(Assigned(r, data).instructions) == AsText(data["instructions"])
    ensures "image_url" in data && (r.imageUrl.Some? ==> '\0' !in r.imageUrl.value) ==>
      Some(Assigned(r, data).imageUrl) == AsNullableText(data["image_url"])
  {
    var a := Assigned(r, data);
    if "title" in data {
      SameValueStoresSame(data["title"], None, Some(r.title));
      assert a.title == if Changes(r, data, Title) then AsVarchar(data["title"], TITLE_MAX).value else r.title;
    }
    if "description" in data {
      SameValueStoresSame(data["description"], None, Some(r.description));
      assert a.description == if Changes(r, data, Description) then AsText(data["description"]).value else r.description;
    }
    if "instructions" in data {
      SameValueStoresSame(data["instructions"], None, Some(r.instructions));
      assert a.instructions == if Changes(r, data, Instructions) then AsText(data["instructions"]).value else r.instructions;
    }
    if "image_url" in data {
      SameValueStoresSame(data["image_url"], None, r.imageUrl);
      assert a.imageUrl == if Changes(r, data, ImageUrl) then AsNullableText(data["image_url"]).value else r.imageUrl;
    }
  }

  /**
   * What each named INTEGER column ends up holding: the given value as the
   * column stores it (a float rounded), whether or not it is written,
   * except a bool, which the column accepts only by being equal to the
   * loaded value, and so never writes.
   */
  lemma AssignedStoresInt(r: Recipe, data: Payload)
    requires r.WellFormed() && ColumnsFit(r, data)
    ensures "category_id" in data && !data["category_id"].Bool? && (r.categoryId.Some? ==> FitsInteger(r.categoryId.value)) ==>
      Some(Assigned(r, data).categoryId) == AsNullableInt(data["category_id"])
    ensures "prep_time" in data && !data["prep_time"].Bool? ==> Some(Assigned(r, data).prepTime) == AsNullableInt(data["prep_time"])
    ensures "cook_time" in data && !data["cook_time"].Bool? ==> Some(Assigned(r, data).cookTime) == AsNullableInt(data["cook_time"])
    ensures "servings" in data && !data["servings"].Bool? ==> Some(Assigned(r, data).servings) == AsNullableInt(data["servings"])
    ensures "prep_time" in data && data["prep_time"].Bool? ==>
      Assigned(r, data).prepTime == r.prepTime == Some(if data["prep_time"].b then 1 else 0)
  {
    var a := Assigned(r, data);
    if "category_id" in data {
      SameValueStoresSame(data["category_id"], r.categoryId, None);
      assert a.categoryId == if Changes(r, data, CategoryId) then AsNullableInt(data["category_id"]).value else r.categoryId;
    }
    if "prep_time" in data {
      SameValueStoresSame(data["prep_time"], r.prepTime, None);
      assert a.prepTime == if Changes(r, data, PrepTime) then AsNullableInt(data["prep_time"]).value else r.prepTime;
    }
    if "cook_time" in data {
      SameValueStoresSame(data["cook_time"], r.cookTime, None);
      assert a.cookTime == if Changes(r, data, CookTime) then AsNullableInt(data["cook_time"]).value else r.cookTime;
    }
    if "servings" in data {
      SameValueStoresSame(data["servings"], r.servings, None);
      assert a.servings == if Changes(r, data, Servings) then AsNullableInt(data["servings"]).value else r.servings;
    }
  }

  /** A key that names no column in the list is never read by the loop. */
  lemma {:induction false} ApplyColumnsIgnores(r: Recipe, data: Payload, columns: seq<RecipeColumn>, key: string, v: Value)
    requires forall i :: 0 <= i < |columns| ==> Key(columns[i]) != key
    ensures ApplyColumns(r, data[key := v], columns) == ApplyColumns(r, data, columns)
    ensures Writes(r, data[key := v], columns) == Writes(r, data, columns)
    decreases |columns|
  {
    if |columns| > 0 {
      var front := columns[..|columns| - 1];
      assert forall j :: 0 <= j < |front| ==> front[j] == columns[j];
      ApplyColumnsIgnores(r, data, front, key, v);
    }
  }

  /**
   * `update_recipe(rid)` for the caller `identity`: 404 for an unknown id,
   * 403 for someone else's recipe, then the whitelisted columns. When no
   * column changes no UPDATE is sent and nothing is stored (200); when
   * one does, the commit refuses a value its column cannot hold (500,
   * nothing stored) and otherwise stores the row with `updated_at` now.
   */
  function UpdateRecipeStep(db: Db, seqs: Sequences, identity: int, rid: int, data: Payload, now: Timestamp): (r: Step)
    ensures rid !in db.recipes ==> r == Step(NotFound, db, seqs)
    ensures rid in db.recipes && db.recipes[rid].userId != identity ==> r == Step(Reply(FORBIDDEN, NOT_OWNER), db, seqs)
    ensures r.reply.code == OK <==>
      rid in db.recipes && db.recipes[rid].userId == identity &&
      ApplyColumns(db.recipes[rid], data, WHITELIST).Some? &&
      (Dirty(db.recipes[rid], data) ==> Storable(db, ApplyColumns(db.recipes[rid], data, WHITELIST).value))
    ensures r.reply.code != OK ==> r.db == db && r.seqs == seqs
    ensures r.reply.code == OK ==> r.db == db.(recipes := r.db.recipes) && r.seqs == seqs
    ensures rid in db.recipes && !Dirty(db.recipes[rid], data) ==> r.db == db
  {
    if rid !in db.recipes then Step(NotFound, db, seqs)
    else
      var before := db.recipes[rid];
      if before.userId != identity then Step(Reply(FORBIDDEN, NOT_OWNER), db, seqs)
      else
        var row := ApplyColumns(before, data, WHITELIST);
        if !Dirty(before, data) then
          ApplyColumnsKept(before, data, WHITELIST);
          Step(Reply(OK, UPDATED_MSG), db, seqs)
        else if row.None? || !Storable(db, row.value) then Step(ServerError, db, seqs)
        else Step(Reply(OK, UPDATED_MSG), db.(recipes := db.recipes[rid := Touch(before, row.value, now)]), seqs)
  }

  /** The route: look up, check the owner, `setattr` over the whitelist, commit. */
  method UpdateRecipe(s: Store, identity: int, rid: int, data: Payload, now: Timestamp) returns (reply: Reply)
    requires s.Valid()
    modifies s
    ensures s.Valid()
    ensures var r := UpdateRecipeStep(old(s.Tables()), old(s.seqs), identity, rid, data, now);
      reply == r.reply && s.Tables() == r.db && s.seqs == r.seqs
  {
    ghost var db := s.Tables();
    if rid !in s.recipes {
      return NotFound;
    }
    var before := s.recipes[rid];
    if before.userId != identity {
      return Reply(FORBIDDEN, NOT_OWNER);
    }
    var row := Some(before);
    var written := false;
    for i := 0 to |WHITELIST|
      invariant row == ApplyColumns(before, data, WHITELIST[..i])
      invariant written == Writes(before, data, WHITELIST[..i])
      invariant unchanged(s)
    {
      ApplyColumnsStep(before, data, WHITELIST, i);
      var c := WHITELIST[i];
      var key := Key(c);
      if key in data && !SameAsLoaded(before, c, data[key]) {
        written := true;
      }
      if row.Some? && key in data {
        row := SetRecipeColumn(before, row.value, c, data[key]);
      }
    }
    assert WHITELIST[..|WHITELIST|] == WHITELIST;
    if !written {
      // No attribute has a net change: the flush sends nothing.
      return Reply(OK, UPDATED_MSG);
    }
    if row.None? || !Storable(s.Tables(), row.value) {
      return ServerError;
    }
    s.recipes := s.recipes[rid := Touch(before, row.value, now)];
    reply := Reply(OK, UPDATED_MSG);
    UpdateRecipeKeepsValid(db, s.seqs, rid, Touch(before, row.value, now));
  }

  /**
   * `{"prep_time": true}` over a stored 1 is no change, so the owner gets
   * 200 and nothing is stored; over any other stored value it reaches the
   * INTEGER column as an SQL boolean and the commit refuses it.
   */
  lemma TruePrepTime(db: Db, seqs: Sequences, rid: int, now: Timestamp)
    requires rid in db.recipes
    ensures var r := UpdateRecipeStep(db, seqs, db.recipes[rid].userId, rid, map["prep_time" := Bool(true)], now);
      r == (if db.recipes[rid].prepTime == Some(1) then Step(Reply(OK, UPDATED_MSG), db, seqs) else Step(ServerError, db, seqs))
  {
    var data := map["prep_time" := Bool(true)];
    WhitelistUnrolled(db.recipes[rid], data);
  }

  /** Rewriting a recipe row in place with a committable one keeps the store valid. */
  lemma UpdateRecipeKeepsValid(db: Db, seqs: Sequences, rid: int, x: Recipe)
    requires Consistent(db) && Ahead(db, seqs) && rid in db.recipes && Storable(db, x)
    ensures Consistent(db.(recipes := db.recipes[rid := x])) && Ahead(db.(recipes := db.recipes[rid := x]), seqs)
  {
    WithRecipe(db, rid, x);
  }

  /**
   * Keys outside the whitelist (such as `user_id` or `recipe_id`) make no
   * difference to what `update_recipe` does.
   */
  lemma UpdateIgnoresOtherKeys(db: Db, seqs: Sequences, identity: int, rid: int, data: Payload, key: string, v: Value, now: Timestamp)
    requires forall c :: Key(c) != key
    ensures UpdateRecipeStep(db, seqs, identity, rid, data[key := v], now) == UpdateRecipeStep(db, seqs, identity, rid, data, now)
  {
    if rid in db.recipes {
      ApplyColumnsIgnores(db.recipes[rid], data, WHITELIST, key, v);
    }
  }

  /**
   * A successful update rewrites only recipe `rid`: it keeps the owner and
   * `created_at`, sets exactly the changed columns, and moves `updated_at`
   * to now exactly when an UPDATE is sent, which it is whenever a stored
   * column changes.
   */
  lemma UpdateSetsNamedColumns(db: Db, seqs: Sequences, identity: int, rid: int, data: Payload, now: Timestamp)
    requires UpdateRecipeStep(db, seqs, identity, rid, data, now).reply.code == OK
    ensures var r := UpdateRecipeStep(db, seqs, identity, rid, data, now);
      r.db.recipes.Keys == db.recipes.Keys && forall k :: k in db.recipes && k != rid ==> r.db.recipes[k] == db.recipes[k]
    ensures var before := db.recipes[rid];
      var after := UpdateRecipeStep(db, seqs, identity, rid, data, now).db.recipes[rid];
      ColumnsFit(before, data) && after.Columns() == Assigned(before, data).Columns() &&
      after.userId == identity && after.createdAt == before.createdAt &&
      after.updatedAt == (if Dirty(before, data) then now else before.updatedAt)
    ensures var before := db.recipes[rid];
      ColumnsFit(before, data) && Assigned(before, data).Columns() != before.Columns() ==> Dirty(before, data)
  {
    var before := db.recipes[rid];
    WhitelistAssigns(before, data);
    if !Dirty(before, data) {
      ApplyColumnsKept(before, data, WHITELIST);
    }
  }

  // ----------------------------------------------------------------- delete

  /**
   * `delete_recipe(rid)` for the caller `identity`: 404, then 403, then
   * the row goes together with what the declared CASCADE rules remove.
   */
  function DeleteRecipeStep(db: Db, seqs: Sequences, identity: int, rid: int): (r: Step)
    ensures rid !in db.recipes ==> r == Step(NotFound, db, seqs)
    ensures rid in db.recipes && db.recipes[rid].userId != identity ==> r == Step(Reply(FORBIDDEN, NOT_OWNER), db, seqs)
    ensures rid in db.recipes && db.recipes[rid].userId == identity ==>
      r == Step(Reply(OK, DELETED_MSG), DeleteRecipe(db, rid), seqs)
  {
    if rid !in db.recipes then Step(NotFound, db, seqs)
    else if db.recipes[rid].userId != identity then Step(Reply(FORBIDDEN, NOT_OWNER), db, seqs)
    else Step(Reply(OK, DELETED_MSG), DeleteRecipe(db, rid), seqs)
  }

  /** The route: look up, check the owner, delete, commit. */
  method DeleteRecipeRoute(s: Store, identity: int, rid: int) returns (reply: Reply)
    requires s.Valid()
    modifies s
    ensures s.Valid()
    ensures var r := DeleteRecipeStep(old(s.Tables()), old(s.seqs), identity, rid);
      reply == r.reply && s.Tables() == r.db && s.seqs == r.seqs
  {
    if rid !in s.recipes {
      return NotFound;
    }
    if s.recipes[rid].userId != identity {
      return Reply(FORBIDDEN, NOT_OWNER);
    }
    ghost var db := s.Tables();
    var d := DeleteRecipe(s.Tables(), rid);
    s.recipes := d.recipes;
    s.recipeIngredients := d.recipeIngredients;
    s.recipeDietaryRestrictions := d.recipeDietaryRestrictions;
    s.ratings := d.ratings;
    s.comments := d.comments;
    s.favorites := d.favorites;
    reply := Reply(OK, DELETED_MSG);
    assert s.Tables() == d;
    DeleteRecipeKeepsValid(db, s.seqs, rid);
  }

  /** Deleting a recipe with its dependent rows keeps the store valid. */
  lemma DeleteRecipeKeepsValid(db: Db, seqs: Sequences, rid: int)
    requires Consistent(db) && Ahead(db, seqs)
    ensures Consistent(DeleteRecipe(db, rid)) && Ahead(DeleteRecipe(db, rid), seqs)
  {
    DeleteRecipeLeavesNoOrphans(db, rid);
    AheadShrinks(db, seqs, DeleteRecipe(db, rid));
  }

  // ------------------------------------------------------------ owner check

  /** The recipes table as `owner_required(Recipe)` sees it. */
  function RecipeModelOf(db: Db): (m: Middleware.Model)
    ensures m.tableName == "recipes" && m.className == "Recipe"
    ensures forall k :: k in m.rows <==> k in db.recipes
    ensures forall k :: k in m.rows ==> m.rows[k] == Middleware.Owner(db.recipes[k].userId)
  {
    Middleware.Model("recipes", "Recipe", map k | k in db.recipes :: Middleware.Owner(db.recipes[k].userId))
  }

  /**
   * The checks `update_recipe` and `delete_recipe` make themselves agree
   * with `owner_required(Recipe)` for any non-zero id: the decorator would
   * call the view exactly when the route gets past its own 404 and 403.
   */
  lemma RouteChecksMatchOwnerRequired(db: Db, seqs: Sequences, uid: int, rid: int, data: Payload, now: Timestamp)
    requires rid != 0
    ensures var d := Middleware.OwnerRequired(RecipeModelOf(db), map["recipe_id" := rid], Middleware.Identity(uid));
      (d == Middleware.CallHandler <==> DeleteRecipeStep(db, seqs, uid, rid).reply == Reply(OK, DELETED_MSG))
    ensures var d := Middleware.OwnerRequired(RecipeModelOf(db), map["recipe_id" := rid], Middleware.Identity(uid));
      (d == Middleware.Respond(Reply(FORBIDDEN, Middleware.UNAUTHORIZED_ACCESS)) <==>
        UpdateRecipeStep(db, seqs, uid, rid, data, now).reply == Reply(FORBIDDEN, NOT_OWNER))
  {
    Middleware.KeyForExamples();
  }
}
