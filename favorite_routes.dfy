/**
 * app/favorites/routes.py: `add_favorite` appends one row, with no
 * duplicate check, and `get_favorites` lists the caller's favorites.
 */
module FavoriteRoutes {
  import opened Wrappers
  import opened Http
  import opened RecipeModel
  import opened InteractionModel
  import opened Database
  import opened Session

  const FAVORITE_OK := "Recipe favorited successfully"

  /**
   * `add_favorite(rid)` for the caller `uid`: the row (uid, rid, now) is
   * added under the next key; the commit refuses a user or recipe that does
   * not exist (500). A pair that is already a favorite is added again.
   */
  function AddFavoriteStep(db: Db, seqs: Sequences, uid: int, rid: int, now: Timestamp): (r: Step)
    ensures r.reply.code == OK <==> uid in db.users && rid in db.recipes
    ensures r.reply.code == OK ==>
      && r.db == db.(favorites := db.favorites[seqs.favorites := Favorite(uid, rid, now)])
      && r.seqs == seqs.(favorites := seqs.favorites + 1)
      && r.reply == Reply(OK, FAVORITE_OK)
    ensures r.reply.code != OK ==> r == Step(ServerError, db, seqs)
  {
    if uid in db.users && rid in db.recipes then
      Step(Reply(OK, FAVORITE_OK), db.(favorites := db.favorites[seqs.favorites := Favorite(uid, rid, now)]),
           seqs.(favorites := seqs.favorites + 1))
    else
      Step(ServerError, db, seqs)
  }

  /** The route: build the row, add it to the session, commit. */
  method AddFavorite(s: Store, identity: int, recipeId: int, now: Timestamp) returns (reply: Reply)
    requires s.Valid()
    modifies s
    ensures s.Valid()
    ensures var r := AddFavoriteStep(old(s.Tables()), old(s.seqs), identity, recipeId, now);
      reply == r.reply && s.Tables() == r.db && s.seqs == r.seqs
  {
    ghost var db, seqs := s.Tables(), s.seqs;
    if identity !in s.users || recipeId !in s.recipes {
      return ServerError;
    }
    var favorite := Favorite(identity, recipeId, now);
    s.favorites := s.favorites[s.seqs.favorites := favorite];
    s.seqs := s.seqs.(favorites := s.seqs.favorites + 1);
    reply := Reply(OK, FAVORITE_OK);
    WithFavorite(db, seqs.favorites, favorite);
    AheadWithFavorite(db, seqs, favorite);
  }

  /** One item of `get_favorites`: the favorited recipe's id, title, description and image. */
  datatype RecipeCard = RecipeCard(recipeId: int, title: string, description: string, imageUrl: Option<string>)

  /** The card `get_favorites` shows for a recipe. */
  function Card(recipeId: int, r: Recipe): (c: RecipeCard)
    ensures c.recipeId == recipeId && c.title == r.title && c.description == r.description && c.imageUrl == r.imageUrl
  {
    RecipeCard(recipeId, r.title, r.description, r.imageUrl)
  }

  /**
   * `get_favorites()` for the caller `uid`: one card per favorite row whose
   * `user_id` is `uid`, by favorite id; `None` when such a row's recipe is
   * gone, where `f.recipe.recipe_id` raises.
   */
  function GetFavorites(db: Db, uid: int): (r: Option<map<int, RecipeCard>>)
    ensures r.Some? <==> forall k :: k in db.favorites && db.favorites[k].userId == uid ==> db.favorites[k].recipeId in db.recipes
    ensures r.Some? ==> forall k :: k in r.value <==> k in db.favorites && db.favorites[k].userId == uid
    ensures r.Some? ==> forall k :: k in r.value ==>
      r.value[k] == Card(db.favorites[k].recipeId, db.recipes[db.favorites[k].recipeId])
  {
    if forall k :: k in db.favorites && db.favorites[k].userId == uid ==> db.favorites[k].recipeId in db.recipes then
      Some(map k | k in db.favorites && db.favorites[k].userId == uid ::
        Card(db.favorites[k].recipeId, db.recipes[db.favorites[k].recipeId]))
    else None
  }

  /** Under referential integrity `get_favorites` always answers. */
  lemma GetFavoritesAnswers(db: Db, uid: int)
    requires RefIntegrity(db)
    ensures GetFavorites(db, uid).Some?
  {
    assert RefsIn(db.favorites, (x: Favorite) => x.recipeId, db.recipes.Keys);
  }

  /** Another user's favorites never show up, whichever row they add. */
  lemma OthersFavoritesHidden(db: Db, seqs: Sequences, uid: int, other: int, rid: int, now: Timestamp)
    requires Ahead(db, seqs) && other != uid
    ensures GetFavorites(AddFavoriteStep(db, seqs, other, rid, now).db, uid) == GetFavorites(db, uid)
  {
    var after := AddFavoriteStep(db, seqs, other, rid, now).db;
    assert seqs.favorites !in db.favorites;
    assert after.recipes == db.recipes;
    assert forall k :: k in after.favorites && after.favorites[k].userId == uid <==>
      k in db.favorites && db.favorites[k].userId == uid;
    assert forall k :: k in db.favorites && db.favorites[k].userId == uid ==> after.favorites[k] == db.favorites[k];
    var f, g := GetFavorites(after, uid), GetFavorites(db, uid);
    if f.Some? {
      assert f.value == g.value;
    }
  }

  /** After `add_favorite(rid)`, the caller's favorites show that recipe's card. */
  lemma AddedFavoriteIsListed(db: Db, seqs: Sequences, uid: int, rid: int, now: Timestamp)
    requires Consistent(db)
    requires AddFavoriteStep(db, seqs, uid, rid, now).reply.code == OK
    ensures var after := AddFavoriteStep(db, seqs, uid, rid, now).db;
      GetFavorites(after, uid).Some? && seqs.favorites in GetFavorites(after, uid).value &&
      GetFavorites(after, uid).value[seqs.favorites] == Card(rid, db.recipes[rid])
  {
    var after := AddFavoriteStep(db, seqs, uid, rid, now).db;
    WithFavorite(db, seqs.favorites, Favorite(uid, rid, now));
    GetFavoritesAnswers(after, uid);
  }

  /** With no duplicate check, favoriting the same recipe twice gives two rows for the pair. */
  lemma RepeatedFavoritesAreKept(db: Db, seqs: Sequences, uid: int, rid: int, now: Timestamp, later: Timestamp)
    requires Ahead(db, seqs)
    requires AddFavoriteStep(db, seqs, uid, rid, now).reply.code == OK
    ensures var first := AddFavoriteStep(db, seqs, uid, rid, now);
      var second := AddFavoriteStep(first.db, first.seqs, uid, rid, later);
      && second.reply.code == OK
      && |second.db.favorites| == |db.favorites| + 2
      && second.db.favorites[seqs.favorites].recipeId == second.db.favorites[seqs.favorites + 1].recipeId == rid
  {
    assert seqs.favorites !in db.favorites;
    var first := AddFavoriteStep(db, seqs, uid, rid, now);
    assert seqs.favorites + 1 !in first.db.favorites;
  }
}
