/**
 * app/utils/middleware.py: the `token_required` and `owner_required`
 * decorators as decisions over what the token verifier and the lookups
 * report.
 */
module Middleware {
  import opened Http

  /** What `verify_jwt_in_request` and `get_jwt_identity` give: a refusal (it raises) or the identity. */
  datatype Jwt = Rejected | Identity(id: int)

  /** What the wrapped view does: answer, or raise. */
  datatype HandlerOutcome = Returned(reply: Reply) | Raised

  const TOKEN_ERROR := "Invalid or expired token"
  const USER_NOT_FOUND := "User not found"

  /**
   * `token_required(f)`: a refused token, an identity with no user row, or
   * a view that raises all answer 401 (the view runs inside the `try`);
   * otherwise the view's own answer is returned.
   */
  function TokenRequired(jwt: Jwt, userIds: set<int>, handler: HandlerOutcome): (r: Reply)
    ensures jwt.Rejected? ==> r == Reply(UNAUTHORIZED, TOKEN_ERROR)
    ensures jwt.Identity? && jwt.id !in userIds ==> r == Reply(UNAUTHORIZED, USER_NOT_FOUND)
    ensures jwt.Identity? && jwt.id in userIds && handler.Raised? ==> r == Reply(UNAUTHORIZED, TOKEN_ERROR)
    ensures jwt.Identity? && jwt.id in userIds && handler.Returned? ==> r == handler.reply
  {
    if jwt.Rejected? then Reply(UNAUTHORIZED, TOKEN_ERROR)
    else if jwt.id !in userIds then Reply(UNAUTHORIZED, USER_NOT_FOUND)
    else if handler.Raised? then Reply(UNAUTHORIZED, TOKEN_ERROR)
    else handler.reply
  }

  /**
   * Nothing but the view's own answer gets past `token_required` unless
   * it is one of the two 401 answers, and the view's answer is only seen
   * for a caller with a user row.
   */
  lemma TokenRequiredPassesThrough(jwt: Jwt, userIds: set<int>, handler: HandlerOutcome)
    ensures var r := TokenRequired(jwt, userIds, handler);
      r == Reply(UNAUTHORIZED, TOKEN_ERROR) || r == Reply(UNAUTHORIZED, USER_NOT_FOUND) ||
      (jwt.Identity? && jwt.id in userIds && handler == Returned(r))
    ensures handler.Returned? && handler.reply.code != UNAUTHORIZED ==>
      (TokenRequired(jwt, userIds, handler) == handler.reply <==> jwt.Identity? && jwt.id in userIds)
  {
  }

  /**
   * The model class `owner_required` is given: its `__tablename__`, its
   * `__name__`, and its rows by primary key, each with its `user_id` when
   * the class has that attribute.
   */
  datatype Model = Model(tableName: string, className: string, rows: map<int, OwnerColumn>)

  /** A row's `user_id`, if the class has one. */
  datatype OwnerColumn = NoOwnerColumn | Owner(userId: int)

  /** The keyword argument the object id is read from: `f'{model.__tablename__[:-1]}_id'`. */
  function KeyFor(tableName: string): (k: string)
    ensures |tableName| > 0 ==> k == tableName[..|tableName| - 1] + "_id"
    ensures |tableName| == 0 ==> k == "_id"
  {
    (if |tableName| == 0 then "" else tableName[..|tableName| - 1]) + "_id"
  }

  /** The key is the singular form only when the name is a plain plural in "s". */
  lemma KeyForExamples()
    ensures KeyFor("recipes") == "recipe_id"
    ensures KeyFor("comments") == "comment_id"
    ensures KeyFor("categories") == "categorie_id"
  {
    assert "recipes"[..6] == "recipe";
    assert "comments"[..7] == "comment";
    assert "categories"[..9] == "categorie";
  }

  /** What the decorated view does next. */
  datatype Decision =
    | Respond(reply: Reply)   // the decorator answers itself
    | CallHandler             // `f(*args, **kwargs)` runs
    | Propagate               // `verify_jwt_in_request` raised outside any `try`

  const INVALID_REQUEST := "Invalid request"
  const UNAUTHORIZED_ACCESS := "Unauthorized access"

  /**
   * `owner_required(model)`: the token first, then 400 for a missing or
   * zero id, 404 for an id with no row, 403 for a row without `user_id`
   * or with someone else's, and only then the view.
   */
  function OwnerRequired(model: Model, kwargs: map<string, int>, jwt: Jwt): (d: Decision)
    ensures d == Propagate <==> jwt.Rejected?
    ensures d == Respond(Reply(BAD_REQUEST, INVALID_REQUEST)) <==>
      jwt.Identity? && (KeyFor(model.tableName) !in kwargs || kwargs[KeyFor(model.tableName)] == 0)
    ensures d == Respond(Reply(NOT_FOUND, model.className + " not found")) <==>
      jwt.Identity? && KeyFor(model.tableName) in kwargs && kwargs[KeyFor(model.tableName)] != 0 &&
      kwargs[KeyFor(model.tableName)] !in model.rows
    ensures d == Respond(Reply(FORBIDDEN, UNAUTHORIZED_ACCESS)) <==>
      jwt.Identity? && KeyFor(model.tableName) in kwargs && kwargs[KeyFor(model.tableName)] != 0 &&
      kwargs[KeyFor(model.tableName)] in model.rows &&
      model.rows[kwargs[KeyFor(model.tableName)]] != Owner(jwt.id)
    ensures d == CallHandler <==>
      jwt.Identity? && KeyFor(model.tableName) in kwargs && kwargs[KeyFor(model.tableName)] != 0 &&
      kwargs[KeyFor(model.tableName)] in model.rows &&
      model.rows[kwargs[KeyFor(model.tableName)]] == Owner(jwt.id)
  {
    if jwt.Rejected? then Propagate
    else
      var key := KeyFor(model.tableName);
      if key !in kwargs || kwargs[key] == 0 then Respond(Reply(BAD_REQUEST, INVALID_REQUEST))
      else
        var id := kwargs[key];
        if id !in model.rows then Respond(Reply(NOT_FOUND, model.className + " not found"))
        else if model.rows[id] != Owner(jwt.id) then Respond(Reply(FORBIDDEN, UNAUTHORIZED_ACCESS))
        else CallHandler
  }

  /**
   * The checks fire in the order 400, 404, 403: a missing id is 400 even
   * when nothing could be found, and an absent row is 404 whoever asks.
   */
  lemma OwnerRequiredOrder(model: Model, kwargs: map<string, int>, id: int, uid: int, other: int)
    requires KeyFor(model.tableName) in kwargs && kwargs[KeyFor(model.tableName)] == id && id != 0
    requires id !in model.rows
    ensures OwnerRequired(model, kwargs, Identity(uid)) == OwnerRequired(model, kwargs, Identity(other))
    ensures OwnerRequired(model, map[], Identity(uid)) == Respond(Reply(BAD_REQUEST, INVALID_REQUEST))
    ensures OwnerRequired(model.(rows := map[]), kwargs[KeyFor(model.tableName) := 0], Identity(uid)) ==
      Respond(Reply(BAD_REQUEST, INVALID_REQUEST))
  {
  }
}
