/**
 * app/ratings/routes.py: `add_rating` validates the value and then
 * overwrites the caller's existing rating of the recipe or inserts a new
 * one; `get_ratings` reports the count and the mean of a recipe's rows.
 */
module RatingRoutes {
  import opened Wrappers
  import opened Json
  import opened Http
  import opened RecipeModel
  import opened InteractionModel
  import opened Database
  import opened Session

  const RATING_ERROR := "Rating must be an integer between 1 and 5"
  const RATING_OK := "Rating submitted successfully"

  /**
   * The value `add_rating` accepts: `isinstance(data.get('rating'), int)`
   * and `1 <= rating <= 5`. JSON `true` is the bool True, which Python
   * counts as the int 1; `false` is 0 and fails the range.
   */
  function RatingValue(data: Payload): (r: Option<int>)
    ensures forall n :: r == Some(n) <==>
      1 <= n <= 5 && ("rating" in data && (data["rating"] == Int(n) || (n == 1 && data["rating"] == Bool(true))))
  {
    match AsInt(Get(data, "rating"))
    case Some(n) => if 1 <= n <= 5 then Some(n) else None
    case None => None
  }

  /** Row `k` is the rating of recipe `rid` by user `uid`. */
  predicate RatesRecipe(ratings: map<int, Rating>, k: int, uid: int, rid: int)
  {
    k in ratings && ratings[k].userId == uid && ratings[k].recipeId == rid
  }

  /** `Rating.query.filter_by(user_id=uid, recipe_id=rid).first()`: the key of the caller's row, if any. */
  ghost function Prior(ratings: map<int, Rating>, uid: int, rid: int): (r: Option<int>)
    ensures r.Some? ==> RatesRecipe(ratings, r.value, uid, rid)
    ensures r.None? ==> forall k :: !RatesRecipe(ratings, k, uid, rid)
  {
    if exists k :: RatesRecipe(ratings, k, uid, rid) then
      var k :| RatesRecipe(ratings, k, uid, rid); Some(k)
    else None
  }

  /**
   * The ratings table after `add_rating` accepted value `v`: the caller's
   * row for the recipe, if there is one, takes the new value and keeps its
   * key and `created_at`; otherwise row (uid, rid, v, now) is added under
   * key `next`.
   */
  ghost function Upsert(ratings: map<int, Rating>, next: int, uid: int, rid: int, v: int, now: Timestamp): (r: map<int, Rating>)
    ensures var prior := Prior(ratings, uid, rid);
      r.Keys == ratings.Keys + (if prior.Some? then {} else {next})
    ensures var k := if Prior(ratings, uid, rid).Some? then Prior(ratings, uid, rid).value else next;
      RatesRecipe(r, k, uid, rid) && r[k].rating == v &&
      r[k].createdAt == (if Prior(ratings, uid, rid).Some? then ratings[k].createdAt else now)
    ensures forall j :: j in ratings && Some(j) != Prior(ratings, uid, rid) && j != next ==> r[j] == ratings[j]
  {
    var prior := Prior(ratings, uid, rid);
    if prior.Some? then ratings[prior.value := ratings[prior.value].(rating := v)]
    else ratings[next := Rating(uid, rid, v, now)]
  }

  /**
   * `add_rating(rid)` for the caller `uid`: a value outside 1..5 is
   * refused with 400 and nothing changes; otherwise the table is upserted,
   * except that the commit refuses (500, nothing changes) a new row naming
   * a missing user or recipe. JSON `true` passes the `isinstance` test but
   * reaches the INTEGER column as an SQL boolean, which PostgreSQL
   * refuses (500); the one exception is a caller whose stored rating is
   * already 1: SQLAlchemy finds `True == 1`, sees no change and sends no
   * UPDATE, so the answer is 200 with nothing changed.
   */
  ghost function AddRatingStep(db: Db, seqs: Sequences, uid: int, rid: int, data: Payload, now: Timestamp): (r: Step)
    ensures RatingValue(data).None? ==> r == Step(Reply(BAD_REQUEST, RATING_ERROR), db, seqs)
    ensures r.reply.code == OK <==>
      && RatingValue(data).Some?
      && if Get(data, "rating").Bool? then
           Prior(db.ratings, uid, rid).Some? && db.ratings[Prior(db.ratings, uid, rid).value].rating == RatingValue(data).value
         else
           Prior(db.ratings, uid, rid).Some? || (uid in db.users && rid in db.recipes)
    ensures RatingValue(data).Some? && r.reply.code != OK ==> r == Step(ServerError, db, seqs)
    ensures Get(data, "rating").Bool? ==> r.db == db && r.seqs == seqs
    ensures r.reply.code == OK ==>
      && r.reply == Reply(OK, RATING_OK)
      && r.db == db.(ratings := Upsert(db.ratings, seqs.ratings, uid, rid, RatingValue(data).value, now))
  {
    if RatingValue(data).None? then Step(Reply(BAD_REQUEST, RATING_ERROR), db, seqs)
    else
      var v := RatingValue(data).value;
      var prior := Prior(db.ratings, uid, rid);
      if Get(data, "rating").Bool? then
        if prior.Some? && db.ratings[prior.value].rating == v then
          assert Upsert(db.ratings, seqs.ratings, uid, rid, v, now) == db.ratings;
          Step(Reply(OK, RATING_OK), db, seqs)
        else Step(ServerError, db, seqs)
      else if prior.Some? then
        Step(Reply(OK, RATING_OK), db.(ratings := Upsert(db.ratings, seqs.ratings, uid, rid, v, now)), seqs)
      else if uid in db.users && rid in db.recipes then
        Step(Reply(OK, RATING_OK), db.(ratings := Upsert(db.ratings, seqs.ratings, uid, rid, v, now)),
             seqs.(ratings := seqs.ratings + 1))
      else
        Step(ServerError, db, seqs)
  }

  /**
   * The route itself: look the caller's row up, then either assign its
   * `rating` in place or add a new row, and commit.
   */
  method AddRating(s: Store, identity: int, recipeId: int, data: Payload, now: Timestamp) returns (reply: Reply)
    requires s.Valid()
    modifies s
    ensures s.Valid()
    ensures var r := AddRatingStep(old(s.Tables()), old(s.seqs), identity, recipeId, data, now);
      reply == r.reply && s.Tables() == r.db && s.seqs == r.seqs
  {
    ghost var db, seqs := s.Tables(), s.seqs;
    var value := RatingValue(data);
    if value.None? {
      return Reply(BAD_REQUEST, RATING_ERROR);
    }
    var isBool := Get(data, "rating").Bool?;
    if k :| k in s.ratings && RatesRecipe(s.ratings, k, identity, recipeId) {
      OnlyRating(db.ratings, k, identity, recipeId);
      // Assigning the value already loaded is no change, and no UPDATE is sent.
      if s.ratings[k].rating != value.value {
        if isBool {
          return ServerError;
        }
        s.ratings := s.ratings[k := s.ratings[k].(rating := value.value)];
      }
      assert s.ratings == Upsert(db.ratings, seqs.ratings, identity, recipeId, value.value, now);
    } else if !isBool && identity in s.users && recipeId in s.recipes {
      s.ratings := s.ratings[s.seqs.ratings := Rating(identity, recipeId, value.value, now)];
      s.seqs := s.seqs.(ratings := s.seqs.ratings + 1);
      assert s.ratings == Upsert(db.ratings, seqs.ratings, identity, recipeId, value.value, now);
    } else {
      return ServerError;
    }
    reply := Reply(OK, RATING_OK);
    ghost var r := AddRatingStep(db, seqs, identity, recipeId, data, now);
    assert s.Tables() == r.db && s.seqs == r.seqs;
    AddRatingKeepsConsistent(db, seqs, identity, recipeId, data, now);
    AddRatingKeepsAhead(db, seqs, identity, recipeId, data, now);
  }

  /**
   * JSON `true` never changes the table: it answers 200 exactly when the
   * caller's stored rating of the recipe is already 1, and 500 otherwise.
   */
  lemma TrueRatingChangesNothing(db: Db, seqs: Sequences, uid: int, rid: int, now: Timestamp)
    requires AtMostOneRating(db.ratings)
    ensures var r := AddRatingStep(db, seqs, uid, rid, map["rating" := Bool(true)], now);
      && r.db == db && r.seqs == seqs
      && (r.reply.code == OK <==> exists k :: RatesRecipe(db.ratings, k, uid, rid) && db.ratings[k].rating == 1)
      && (r.reply.code != OK ==> r.reply == ServerError)
  {
    var data := map["rating" := Bool(true)];
    assert RatingValue(data) == Some(1);
    if k :| RatesRecipe(db.ratings, k, uid, rid) {
      OnlyRating(db.ratings, k, uid, rid);
    }
  }

  /** Under the one-rating rule, the caller's row for a recipe is the only one. */
  lemma OnlyRating(ratings: map<int, Rating>, k: int, uid: int, rid: int)
    requires AtMostOneRating(ratings) && RatesRecipe(ratings, k, uid, rid)
    ensures forall j :: RatesRecipe(ratings, j, uid, rid) ==> j == k
    ensures Prior(ratings, uid, rid) == Some(k)
  {
  }

  /** `add_rating` keeps the database consistent, in particular at most one rating per (user, recipe). */
  lemma AddRatingKeepsConsistent(db: Db, seqs: Sequences, uid: int, rid: int, data: Payload, now: Timestamp)
    requires Consistent(db) && Ahead(db, seqs)
    ensures Consistent(AddRatingStep(db, seqs, uid, rid, data, now).db)
  {
    var r := AddRatingStep(db, seqs, uid, rid, data, now);
    if r.reply.code == OK {
      var t := Upsert(db.ratings, seqs.ratings, uid, rid, RatingValue(data).value, now);
      UpsertKeepsRatingRules(db.ratings, seqs.ratings, uid, rid, RatingValue(data).value, now, db.users.Keys, db.recipes.Keys);
      WithRatings(db, t);
    }
  }

  /** The upsert keeps the rating rules: live keys and one row per (user, recipe). */
  lemma UpsertKeepsRatingRules(ratings: map<int, Rating>, next: int, uid: int, rid: int, v: int, now: Timestamp,
                                users: set<int>, recipes: set<int>)
    requires RefsIn(ratings, (x: Rating) => x.userId, users)
    requires RefsIn(ratings, (x: Rating) => x.recipeId, recipes)
    requires AtMostOneRating(ratings) && next !in ratings
    requires Prior(ratings, uid, rid).Some? || (uid in users && rid in recipes)
    ensures RefsIn(Upsert(ratings, next, uid, rid, v, now), (x: Rating) => x.userId, users)
    ensures RefsIn(Upsert(ratings, next, uid, rid, v, now), (x: Rating) => x.recipeId, recipes)
    ensures AtMostOneRating(Upsert(ratings, next, uid, rid, v, now))
  {
    var prior := Prior(ratings, uid, rid);
    if prior.Some? {
      OverwriteKeepsOneRating(ratings, prior.value, v);
    } else {
      NewRatingKeepsOneRating(ratings, next, Rating(uid, rid, v, now));
    }
  }

  /** `add_rating` hands out keys its counter has not reached yet. */
  lemma AddRatingKeepsAhead(db: Db, seqs: Sequences, uid: int, rid: int, data: Payload, now: Timestamp)
    requires Ahead(db, seqs)
    ensures Ahead(AddRatingStep(db, seqs, uid, rid, data, now).db, AddRatingStep(db, seqs, uid, rid, data, now).seqs)
  {
    var r := AddRatingStep(db, seqs, uid, rid, data, now);
    if r.reply.code == OK {
      var t := Upsert(db.ratings, seqs.ratings, uid, rid, RatingValue(data).value, now);
      assert t.Keys <= db.ratings.Keys + {seqs.ratings};
      AheadWithRatings(db, seqs, t, r.seqs.ratings);
    }
  }

  /** Changing the value of one row keeps at most one rating per pair. */
  lemma OverwriteKeepsOneRating(ratings: map<int, Rating>, k: int, v: int)
    requires AtMostOneRating(ratings) && k in ratings
    ensures AtMostOneRating(ratings[k := ratings[k].(rating := v)])
  {
  }

  /** A row for a pair nobody has rated yet keeps at most one rating per pair. */
  lemma NewRatingKeepsOneRating(ratings: map<int, Rating>, next: int, x: Rating)
    requires AtMostOneRating(ratings) && next !in ratings
    requires forall k :: !RatesRecipe(ratings, k, x.userId, x.recipeId)
    ensures AtMostOneRating(ratings[next := x])
  {
    var t := ratings[next := x];
    forall a, b | a in t && b in t && t[a].userId == t[b].userId && t[a].recipeId == t[b].recipeId
      ensures a == b
    {
      if a == next && b != next {
        assert RatesRecipe(ratings, b, x.userId, x.recipeId);
      } else if b == next && a != next {
        assert RatesRecipe(ratings, a, x.userId, x.recipeId);
      }
    }
  }


  /** The keys of recipe `rid`'s ratings: `Rating.query.filter_by(recipe_id=rid)`. */
  function RatingsOf(ratings: map<int, Rating>, rid: int): (ids: set<int>)
    ensures forall k :: k in ids <==> k in ratings && ratings[k].recipeId == rid
  {
    set k | k in ratings && ratings[k].recipeId == rid
  }

  /** `sum(r.rating for r in ratings)` over the rows whose keys are `ids`. */
  ghost function SumOver(ratings: map<int, Rating>, ids: set<int>): int
    requires ids <= ratings.Keys
    decreases ids
  {
    if ids == {} then 0
    else
      NonEmpty(ids);
      var k :| k in ids;
      ratings[k].rating + SumOver(ratings, ids - {k})
  }

  /** The figures `get_ratings` reports: the number of rows and the sum of their values. */
  datatype Summary = Summary(count: nat, total: int)
  {
    /** `average_rating` before `round(…, 1)`: 0 when there are no rows. */
    function Average(): (a: real)
      ensures count == 0 ==> a == 0.0
      ensures count > 0 ==> a * count as real == total as real
    {
      if count == 0 then 0.0 else total as real / count as real
    }
  }

  /** `get_ratings(rid)`: `number_of_ratings` counts the recipe's rows; with none, both figures are 0. */
  ghost function GetRatings(db: Db, rid: int): (r: Summary)
    ensures r.count == |RatingsOf(db.ratings, rid)|
    ensures r.count == 0 ==> r == Summary(0, 0) && r.Average() == 0.0
  {
    var ids := RatingsOf(db.ratings, rid);
    Summary(|ids|, SumOver(db.ratings, ids))
  }

  /** Every stored value is in 1..5, as `add_rating` writes them. */
  ghost predicate RatingsInRange(ratings: map<int, Rating>)
  {
    forall k :: k in ratings ==> 1 <= ratings[k].rating <= 5
  }

  /** A set that is not empty has an element. */
  lemma NonEmpty(ids: set<int>)
    requires ids != {}
    ensures exists k :: k in ids
  {
    if forall k :: k !in ids {
      assert false;
    }
  }

  /** The sum does not depend on which row `SumOver` takes first. */
  lemma {:induction false} SumOverRemove(ratings: map<int, Rating>, ids: set<int>, k: int)
    requires ids <= ratings.Keys && k in ids
    ensures SumOver(ratings, ids) == ratings[k].rating + SumOver(ratings, ids - {k})
    decreases ids
  {
    var j :| j in ids && SumOver(ratings, ids) == ratings[j].rating + SumOver(ratings, ids - {j});
    if j != k {
      SumOverRemove(ratings, ids - {j}, k);
      SumOverRemove(ratings, ids - {k}, j);
      assert ids - {j} - {k} == ids - {k} - {j};
    }
  }

  /** Values in 1..5 give a sum between the count and five times the count. */
  lemma {:induction false} SumOverBounds(ratings: map<int, Rating>, ids: set<int>)
    requires ids <= ratings.Keys && RatingsInRange(ratings)
    ensures |ids| <= SumOver(ratings, ids) <= 5 * |ids|
    decreases ids
  {
    if ids != {} {
      NonEmpty(ids);
      var k :| k in ids;
      SumOverRemove(ratings, ids, k);
      SumOverBounds(ratings, ids - {k});
    }
  }

  /** Two tables that agree on the rows `ids` give the same sum over them. */
  lemma {:induction false} SumOverAgree(a: map<int, Rating>, b: map<int, Rating>, ids: set<int>)
    requires ids <= a.Keys && ids <= b.Keys
    requires forall k :: k in ids ==> a[k].rating == b[k].rating
    ensures SumOver(a, ids) == SumOver(b, ids)
    decreases ids
  {
    if ids != {} {
      NonEmpty(ids);
      var k :| k in ids;
      SumOverRemove(a, ids, k);
      SumOverRemove(b, ids, k);
      SumOverAgree(a, b, ids - {k});
    }
  }

  /** When every row was written by `add_rating`, a recipe with ratings has a mean between 1 and 5. */
  lemma MeanInRange(db: Db, rid: int)
    requires RatingsInRange(db.ratings) && GetRatings(db, rid).count > 0
    ensures 1.0 <= GetRatings(db, rid).Average() <= 5.0
  {
    var ids := RatingsOf(db.ratings, rid);
    SumOverBounds(db.ratings, ids);
    SummaryMean(GetRatings(db, rid));
  }

  /** A summary of `count` values in 1..5 has a mean in 1..5. */
  lemma SummaryMean(r: Summary)
    requires r.count > 0 && r.count <= r.total <= 5 * r.count
    ensures 1.0 <= r.Average() <= 5.0
  {
    MeanBetween(r.total as real, r.count as real, r.Average());
  }

  /** A mean `a` of `c` values summing to `t` lies in 1..5 when `c <= t <= 5c`. */
  lemma MeanBetween(t: real, c: real, a: real)
    requires c > 0.0 && a * c == t && c <= t <= 5.0 * c
    ensures 1.0 <= a <= 5.0
  {
    assert (a - 1.0) * c == t - c;
    assert (5.0 - a) * c == 5.0 * c - t;
  }

  /** `add_rating` only ever stores values in 1..5. */
  lemma AddRatingKeepsRange(db: Db, seqs: Sequences, uid: int, rid: int, data: Payload, now: Timestamp)
    requires RatingsInRange(db.ratings)
    ensures RatingsInRange(AddRatingStep(db, seqs, uid, rid, data, now).db.ratings)
  {
    var r := AddRatingStep(db, seqs, uid, rid, data, now);
    if r.reply.code == OK {
      var v := RatingValue(data).value;
      assert 1 <= v <= 5;
      UpsertInRange(db.ratings, seqs.ratings, uid, rid, v, now);
    }
  }

  lemma UpsertInRange(ratings: map<int, Rating>, next: int, uid: int, rid: int, v: int, now: Timestamp)
    requires RatingsInRange(ratings) && 1 <= v <= 5
    ensures RatingsInRange(Upsert(ratings, next, uid, rid, v, now))
  {
  }

  /**
   * The effect of an accepted rating on `get_ratings(rid)`: overwriting
   * keeps the count and replaces the old value in the sum; a new row adds
   * one to the count and its value to the sum.
   */
  lemma UpsertSummary(db: Db, next: int, uid: int, rid: int, v: int, now: Timestamp)
    requires next !in db.ratings
    ensures var after := db.(ratings := Upsert(db.ratings, next, uid, rid, v, now));
      var prior := Prior(db.ratings, uid, rid);
      GetRatings(after, rid) ==
        if prior.Some? then Summary(GetRatings(db, rid).count, GetRatings(db, rid).total - db.ratings[prior.value].rating + v)
        else Summary(GetRatings(db, rid).count + 1, GetRatings(db, rid).total + v)
  {
    var prior := Prior(db.ratings, uid, rid);
    if prior.Some? {
      OverwriteSummary(db.ratings, prior.value, rid, v);
    } else {
      InsertSummary(db.ratings, next, rid, Rating(uid, rid, v, now));
    }
  }

  lemma OverwriteSummary(ratings: map<int, Rating>, k: int, rid: int, v: int)
    requires k in ratings && ratings[k].recipeId == rid
    ensures var t := ratings[k := ratings[k].(rating := v)];
      RatingsOf(t, rid) == RatingsOf(ratings, rid) &&
      SumOver(t, RatingsOf(t, rid)) == SumOver(ratings, RatingsOf(ratings, rid)) - ratings[k].rating + v
  {
    var t := ratings[k := ratings[k].(rating := v)];
    var ids := RatingsOf(ratings, rid);
    assert RatingsOf(t, rid) == ids;
    SumOverRemove(ratings, ids, k);
    SumOverRemove(t, ids, k);
    SumOverAgree(ratings, t, ids - {k});
  }

  lemma InsertSummary(ratings: map<int, Rating>, next: int, rid: int, x: Rating)
    requires next !in ratings && x.recipeId == rid
    ensures var t := ratings[next := x];
      RatingsOf(t, rid) == RatingsOf(ratings, rid) + {next} &&
      SumOver(t, RatingsOf(t, rid)) == SumOver(ratings, RatingsOf(ratings, rid)) + x.rating
  {
    var t := ratings[next := x];
    var ids := RatingsOf(ratings, rid);
    assert RatingsOf(t, rid) == ids + {next};
    SumOverRemove(t, ids + {next}, next);
    assert ids + {next} - {next} == ids;
    SumOverAgree(ratings, t, ids);
  }

  /** A rating of one recipe leaves every other recipe's figures as they were. */
  lemma UpsertKeepsOtherSummaries(db: Db, next: int, uid: int, rid: int, v: int, now: Timestamp, other: int)
    requires next !in db.ratings && other != rid
    ensures GetRatings(db.(ratings := Upsert(db.ratings, next, uid, rid, v, now)), other) == GetRatings(db, other)
  {
    var t := Upsert(db.ratings, next, uid, rid, v, now);
    var ids := RatingsOf(db.ratings, other);
    assert RatingsOf(t, other) == ids;
    SumOverAgree(db.ratings, t, ids);
  }
}
