/**
 * app/comments/routes.py: `add_comment` appends one row and
 * `get_comments` lists a recipe's comments with their authors' names.
 */
module CommentRoutes {
  import opened Wrappers
  import opened Json
  import opened Http
  import opened RecipeModel
  import opened InteractionModel
  import opened Database
  import opened Session

  const COMMENT_OK := "Comment added successfully"

  /**
   * `add_comment(rid)` for the caller `uid`: `data['content']` must be
   * there (a missing key raises, 500); the row (uid, rid, content, now)
   * is added under the next key, with an int or a bool stored as its text;
   * the commit refuses any other content and a user or recipe that does
   * not exist (500). Nothing else
   * is checked: no length, no emptiness, no limit per (user, recipe).
   */
  function AddCommentStep(db: Db, seqs: Sequences, uid: int, rid: int, data: Payload, now: Timestamp): (r: Step)
    ensures r.reply.code == OK <==>
      "content" in data && AsText(data["content"]).Some? && uid in db.users && rid in db.recipes
    ensures r.reply.code == OK ==>
      && r.db == db.(comments := db.comments[seqs.comments := Comment(uid, rid, AsText(data["content"]).value, now)])
      && r.seqs == seqs.(comments := seqs.comments + 1)
      && r.reply == Reply(OK, COMMENT_OK)
    ensures r.reply.code != OK ==> r == Step(ServerError, db, seqs)
  {
    if "content" in data && AsText(data["content"]).Some? && uid in db.users && rid in db.recipes then
      Step(Reply(OK, COMMENT_OK), db.(comments := db.comments[seqs.comments := Comment(uid, rid, AsText(data["content"]).value, now)]),
           seqs.(comments := seqs.comments + 1))
    else
      Step(ServerError, db, seqs)
  }

  /** The route: build the row, add it to the session, commit. */
  method AddComment(s: Store, identity: int, recipeId: int, data: Payload, now: Timestamp) returns (reply: Reply)
    requires s.Valid()
    modifies s
    ensures s.Valid()
    ensures var r := AddCommentStep(old(s.Tables()), old(s.seqs), identity, recipeId, data, now);
      reply == r.reply && s.Tables() == r.db && s.seqs == r.seqs
  {
    ghost var db, seqs := s.Tables(), s.seqs;
    if "content" !in data {
      return ServerError;
    }
    var content := AsText(data["content"]);
    if content.None? || identity !in s.users || recipeId !in s.recipes {
      return ServerError;
    }
    var comment := Comment(identity, recipeId, content.value, now);
    s.comments := s.comments[s.seqs.comments := comment];
    s.seqs := s.seqs.(comments := s.seqs.comments + 1);
    reply := Reply(OK, COMMENT_OK);
    WithComment(db, seqs.comments, comment);
    AheadWithComment(db, seqs, comment);
  }

  /** psycopg2 will not send a text holding U+0000, so such a comment is a 500 and nothing is stored. */
  lemma NulContentRefused(db: Db, seqs: Sequences, uid: int, rid: int, now: Timestamp)
    ensures AddCommentStep(db, seqs, uid, rid, map["content" := Str("a\0b")], now) == Step(ServerError, db, seqs)
  {
    assert "a\0b"[1] == '\0';
  }

  /** One item of `get_comments`. */
  datatype CommentView = CommentView(commentId: int, userId: int, content: string, createdAt: Timestamp, username: string)

  /**
   * `get_comments(rid)`: one item per comment whose `recipe_id` is `rid`,
   * by comment id (the order of `query.all()` is not modelled); `None`
   * when some such comment's author is gone, where `c.user.username` raises.
   */
  function GetComments(db: Db, rid: int): (r: Option<map<int, CommentView>>)
    ensures r.Some? <==> forall k :: k in db.comments && db.comments[k].recipeId == rid ==> db.comments[k].userId in db.users
    ensures r.Some? ==> forall k :: k in r.value <==> k in db.comments && db.comments[k].recipeId == rid
    ensures r.Some? ==> forall k :: k in r.value ==>
      var c := db.comments[k];
      r.value[k] == CommentView(k, c.userId, c.content, c.createdAt, db.users[c.userId].username)
  {
    if forall k :: k in db.comments && db.comments[k].recipeId == rid ==> db.comments[k].userId in db.users then
      Some(map k | k in db.comments && db.comments[k].recipeId == rid ::
        CommentView(k, db.comments[k].userId, db.comments[k].content, db.comments[k].createdAt,
                    db.users[db.comments[k].userId].username))
    else None
  }

  /** Under referential integrity `get_comments` always answers. */
  lemma GetCommentsAnswers(db: Db, rid: int)
    requires RefIntegrity(db)
    ensures GetComments(db, rid).Some?
  {
    assert RefsIn(db.comments, (x: Comment) => x.userId, db.users.Keys);
  }

  /**
   * After a comment is added to recipe `rid`, `get_comments(rid)` lists it with
   * its author's name, and every comment listed before is listed unchanged.
   */
  lemma AddedCommentIsListed(db: Db, seqs: Sequences, uid: int, rid: int, data: Payload, now: Timestamp)
    requires Consistent(db) && Ahead(db, seqs)
    requires AddCommentStep(db, seqs, uid, rid, data, now).reply.code == OK
    ensures var after := AddCommentStep(db, seqs, uid, rid, data, now).db;
      GetComments(after, rid).Some? && seqs.comments in GetComments(after, rid).value &&
      GetComments(after, rid).value[seqs.comments] == CommentView(seqs.comments, uid, AsText(data["content"]).value, now, db.users[uid].username)
    ensures var after := AddCommentStep(db, seqs, uid, rid, data, now).db;
      GetComments(after, rid).Some? && GetComments(db, rid).Some? &&
      forall k :: k in GetComments(db, rid).value ==>
        k in GetComments(after, rid).value && GetComments(after, rid).value[k] == GetComments(db, rid).value[k]
  {
    var after := AddCommentStep(db, seqs, uid, rid, data, now).db;
    WithComment(db, seqs.comments, Comment(uid, rid, AsText(data["content"]).value, now));
    GetCommentsAnswers(db, rid);
    GetCommentsAnswers(after, rid);
  }

  /** With no duplicate check, the same comment posted twice gives two rows. */
  lemma RepeatedCommentsAreKept(db: Db, seqs: Sequences, uid: int, rid: int, data: Payload, now: Timestamp, later: Timestamp)
    requires Ahead(db, seqs)
    requires AddCommentStep(db, seqs, uid, rid, data, now).reply.code == OK
    ensures var first := AddCommentStep(db, seqs, uid, rid, data, now);
      var second := AddCommentStep(first.db, first.seqs, uid, rid, data, later);
      second.reply.code == OK &&
      |second.db.comments| == |db.comments| + 2 &&
      second.db.comments[seqs.comments].content == second.db.comments[seqs.comments + 1].content
  {
    assert seqs.comments !in db.comments;
    var first := AddCommentStep(db, seqs, uid, rid, data, now);
    assert seqs.comments + 1 !in first.db.comments;
  }
}
