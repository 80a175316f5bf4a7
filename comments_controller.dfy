/**
 * controllers/comments.js: the comments of an article, posting a comment and
 * deleting one, each deciding what the request gets from the path id, the
 * body and what the store calls settle with.
 */
module CommentsController {
  import opened JsRuntime
  import opened Tables
  import opened ArticlesModel
  import opened CommentsModel
  import opened App

  const MissingComment: string := "Bad Request: Missing username/body or request formatted incorrectly"
  const CannotPostComment: string := "Cannot post comment to article that does not exist"
  const CannotDeleteComment: string := "Cannot delete comment that does not exist"

  // ---------------------------------------------------------------------------
  // getCommentsById (GET /api/articles/:article_id/comments)
  // ---------------------------------------------------------------------------

  /**
   * getCommentsById: the id check, then the lookup. A rejected lookup, the
   * model's "No comments found" included, is passed on as a 500.
   */
  function GetCommentsById(id: string, lookup: QueryResult<Comment>): (h: Handled)
    ensures h.Send? ==> lookup.Rows? && lookup.rows != [] && h == Send(200, CommentsBody(lookup.rows))
    ensures h.Next? ==> h.error.status == if IdRejected(id) then Some(400) else Some(500)
  {
    if IdRejected(id) then Next(JsError(Some(400), IdMustBeNumber))
    else
      match SelectCommentsById(lookup)
      case Rejected(e) => Next(CatchAs500(e))
      case Resolved(comments) =>
        if |comments| == 0 then Next(JsError(Some(404), NoCommentsFound))
        else Send(200, CommentsBody(comments))
  }

  /**
   * The id is answered with 400 "Bad Request: ID must be a number" exactly
   * when parseInt finds no number at its start, and then the store is not
   * consulted.
   */
  lemma CommentsIdCheck(id: string, lookup: QueryResult<Comment>, other: QueryResult<Comment>)
    ensures Respond(GetCommentsById(id, lookup)) == Response(400, MessageBody(IdMustBeNumber)) <==> IdRejected(id)
    ensures IdRejected(id) ==> GetCommentsById(id, lookup) == GetCommentsById(id, other)
  {
  }

  /**
   * getCommentsById never answers 404: an article without comments is
   * answered with 500 "No comments found with matching article ID", a failing
   * query with 500 "Bad Request: ID must be a number", and comments with 200.
   */
  lemma CommentsOutcomes(id: string, lookup: QueryResult<Comment>)
    ensures Respond(GetCommentsById(id, lookup)).status != 404
    ensures !IdRejected(id) && lookup == Rows([]) ==>
      Respond(GetCommentsById(id, lookup)) == Response(500, MessageBody(NoCommentsFound))
    ensures !IdRejected(id) && lookup.QueryFailed? ==>
      Respond(GetCommentsById(id, lookup)) == Response(500, MessageBody(IdMustBeNumber))
    ensures !IdRejected(id) && lookup.Rows? && lookup.rows != [] ==>
      Respond(GetCommentsById(id, lookup)) == Response(200, CommentsBody(lookup.rows))
  {
  }

  /**
   * Against the table, with the id's text sent as the query's parameter: an
   * id parseInt refuses gets 400; an id parseInt accepts but PostgreSQL does
   * not read as an integer gets 500 "Bad Request: ID must be a number"; any
   * other gets 200 exactly when the article with the integer it stands for
   * has comments, and then all of them, newest first; otherwise 500 "No
   * comments found with matching article ID".
   */
  lemma GetCommentsByIdOnTable(db: Db, id: string, answer: QueryResult<Comment>)
    requires IsCommentsLookup(db, id, answer)
    ensures var r := Respond(GetCommentsById(id, answer));
      && (IdRejected(id) ==> r == Response(400, MessageBody(IdMustBeNumber)))
      && (!IdRejected(id) && PgInteger(id).None? ==> r == Response(500, MessageBody(IdMustBeNumber)))
      && (PgInteger(id).Some? ==>
            var key := PgInteger(id).value;
            && (r.status == 200 <==> CommentCount(db.comments, key) > 0)
            && (r.status == 200 ==>
                  && answer.Rows?
                  && r.body == CommentsBody(answer.rows)
                  && |answer.rows| == CommentCount(db.comments, key)
                  && (forall c :: c in answer.rows <==> c in db.comments && c.articleId == key)
                  && (forall i, j :: 0 <= i < j < |answer.rows| ==>
                        answer.rows[i].createdAt >= answer.rows[j].createdAt))
            && (r.status != 200 ==> r == Response(500, MessageBody(NoCommentsFound))))
  {
    if PgInteger(id).Some? {
      PgIntegerPassesIdCheck(id);
      SelectCommentsByIdOnTable(db, PgInteger(id).value, answer.rows);
    }
  }

  // ---------------------------------------------------------------------------
  // postComment (no route in app.js reaches it)
  // ---------------------------------------------------------------------------

  /**
   * The body check on a body whose property reads do not throw: a falsy
   * `body`, a falsy `username`, or a body that is not an object.
   */
  predicate CommentRejected(newComment: JsValue)
    requires !Nullish(newComment)
  {
    !Truthy(Field(newComment, "body")) || !Truthy(Field(newComment, "username")) || !TypeofObject(newComment)
  }

  /** Only the truthiness of `body` and `username` decides: the `typeof` test never does. */
  lemma CommentRejectedIff(newComment: JsValue)
    requires !Nullish(newComment)
    ensures CommentRejected(newComment)
        <==> !Truthy(Field(newComment, "body")) || !Truthy(Field(newComment, "username"))
  {
  }

  /**
   * postComment: the id check, the body check (reading `body` of an
   * undefined or null request body throws), then the article lookup, and only
   * once the lookup has resolved, the insert. Rejections of either are passed
   * on as a 500.
   */
  function PostComment(id: string, newComment: JsValue, lookup: QueryResult<Article>,
                       insert: Settled<Comment>): (h: Handled)
    ensures h.Send? ==> h.status == 201
    ensures h.Next? ==> h.error.status != Some(404)
    ensures h.Next? && h.error.status == Some(400) ==>
      h.error.message == IdMustBeNumber || h.error.message == MissingComment
  {
    if IdRejected(id) then Next(JsError(Some(400), IdMustBeNumber))
    else if Nullish(newComment) then Next(ReadTypeError(newComment, "body"))
    else if CommentRejected(newComment) then Next(JsError(Some(400), MissingComment))
    else CommentInsert(lookup, insert)
  }

  /**
   * The promise chain of postComment once the checks pass: the article
   * lookup, then, in its `.then`, the insert. What comes of it is a 201 with
   * the new comment or a 500; the 404 of the `.then` is never reached.
   */
  function CommentInsert(lookup: QueryResult<Article>, insert: Settled<Comment>): (h: Handled)
    ensures h.Send? ==> h.status == 201
    ensures h.Next? ==> h.error.status == Some(500)
  {
    match SelectArticleById(lookup)
    case Rejected(e) => Next(CatchAs500(e))
    case Resolved(article) =>
      if |article| == 0 then Next(JsError(Some(404), CannotPostComment))
      else
        match insert
        case Resolved(comment) => Send(201, CommentBody(comment))
        case Rejected(e) => Next(CatchAs500(e))
  }

  /** The id check comes first and consults neither the body nor the store. */
  lemma PostIdCheck(id: string, newComment: JsValue, lookup: QueryResult<Article>, insert: Settled<Comment>,
                    newComment2: JsValue, lookup2: QueryResult<Article>, insert2: Settled<Comment>)
    ensures Respond(PostComment(id, newComment, lookup, insert)) == Response(400, MessageBody(IdMustBeNumber))
        <==> IdRejected(id)
    ensures IdRejected(id) ==>
      PostComment(id, newComment, lookup, insert) == PostComment(id, newComment2, lookup2, insert2)
  {
    assert |IdMustBeNumber| == 32 && |MissingComment| == 67;
    if !IdRejected(id) {
      var h := PostComment(id, newComment, lookup, insert);
      assert h.Send? || h.error.status != Some(400) || h.error.message == MissingComment;
    }
  }

  /**
   * With a valid id and a request body that is not undefined or null, the
   * request is answered with 400 "Missing username/body" exactly when `body`
   * or `username` is falsy; an undefined or null request body makes the
   * handler throw, which the app answers with 500.
   */
  lemma PostBodyCheck(id: string, newComment: JsValue, lookup: QueryResult<Article>, insert: Settled<Comment>)
    requires !IdRejected(id)
    ensures !Nullish(newComment) ==>
      (Respond(PostComment(id, newComment, lookup, insert)) == Response(400, MessageBody(MissingComment))
       <==> !Truthy(Field(newComment, "body")) || !Truthy(Field(newComment, "username")))
    ensures Nullish(newComment) ==>
      Respond(PostComment(id, newComment, lookup, insert)) == Response(500, MessageBody(InternalServerError))
  {
    var h := PostComment(id, newComment, lookup, insert);
    if Nullish(newComment) {
      assert h == Next(ReadTypeError(newComment, "body"));
    } else {
      CommentRejectedIff(newComment);
      if !CommentRejected(newComment) {
        assert h == CommentInsert(lookup, insert);
      }
    }
  }

  /** Fields other than `body` and `username` have no effect on the answer. */
  lemma ExtraFieldsIgnored(id: string, fields: map<string, JsValue>, key: string, value: JsValue,
                           lookup: QueryResult<Article>, insert: Settled<Comment>)
    requires key != "body" && key != "username"
    ensures PostComment(id, Obj(fields[key := value]), lookup, insert) == PostComment(id, Obj(fields), lookup, insert)
  {
    var extended := Obj(fields[key := value]);
    assert Field(extended, "body") == Field(Obj(fields), "body");
    assert Field(extended, "username") == Field(Obj(fields), "username");
  }

  /**
   * The insert is consulted only after the article lookup resolves: when the
   * lookup rejects, the answer does not depend on the insert and is a 500
   * with the lookup's message ("Article not found" for a missing article),
   * never a 404. After a resolved lookup, the insert decides: 201 with the
   * new comment, or 500 with the insert's message.
   */
  lemma InsertOnlyAfterLookup(id: string, newComment: JsValue, lookup: QueryResult<Article>,
                              insert: Settled<Comment>, insert2: Settled<Comment>)
    requires !IdRejected(id) && !Nullish(newComment)
    requires Truthy(Field(newComment, "body")) && Truthy(Field(newComment, "username"))
    ensures SelectArticleById(lookup).Rejected? ==>
      && PostComment(id, newComment, lookup, insert) == PostComment(id, newComment, lookup, insert2)
      && Respond(PostComment(id, newComment, lookup, insert))
         == Response(500, MessageBody(SelectArticleById(lookup).error.message))
    ensures lookup == Rows([]) ==>
      Respond(PostComment(id, newComment, lookup, insert)) == Response(500, MessageBody(ArticleNotFound))
    ensures lookup.Rows? && lookup.rows != [] && insert.Rejected? ==>
      Respond(PostComment(id, newComment, lookup, insert)) == Response(500, MessageBody(insert.error.message))
    ensures Respond(PostComment(id, newComment, lookup, insert)).status == 201
        <==> lookup.Rows? && lookup.rows != [] && insert.Resolved?
    ensures Respond(PostComment(id, newComment, lookup, insert)).status == 201 ==>
      Respond(PostComment(id, newComment, lookup, insert)).body == CommentBody(insert.value)
    ensures Respond(PostComment(id, newComment, lookup, insert)).status != 404
  {
    CommentRejectedIff(newComment);
    assert PostComment(id, newComment, lookup, insert) == CommentInsert(lookup, insert);
    assert PostComment(id, newComment, lookup, insert2) == CommentInsert(lookup, insert2);
  }

  // ---------------------------------------------------------------------------
  // deleteCommentById (no route in app.js reaches it)
  // ---------------------------------------------------------------------------

  /**
   * deleteCommentById: the id check, then the removal. No rows removed is a
   * 404 (this one is sent from `.then`, so it is not overwritten); a rejected
   * removal is passed on as a 500.
   */
  function DeleteCommentById(id: string, removal: Settled<seq<Comment>>): (h: Handled)
    ensures h.Send? ==> removal.Resolved? && removal.value != [] && h == Send(204, NoContent)
    ensures (h.Next? && h.error.status == Some(404)) <==> !IdRejected(id) && removal == Resolved([])
  {
    if IdRejected(id) then Next(JsError(Some(400), IdMustBeNumber))
    else
      match removal
      case Rejected(e) => Next(CatchAs500(e))
      case Resolved(comment) =>
        if |comment| == 0 then Next(JsError(Some(404), CannotDeleteComment))
        else Send(204, NoContent)
  }

  /** The id check comes first and does not consult the store. */
  lemma DeleteIdCheck(id: string, removal: Settled<seq<Comment>>, other: Settled<seq<Comment>>)
    ensures Respond(DeleteCommentById(id, removal)) == Response(400, MessageBody(IdMustBeNumber)) <==> IdRejected(id)
    ensures IdRejected(id) ==> DeleteCommentById(id, removal) == DeleteCommentById(id, other)
  {
  }

  /**
   * With a valid id: no rows removed is answered with 404 "Cannot delete
   * comment that does not exist", rows removed with 204 and no content, and a
   * rejected removal with 500 and its message.
   */
  lemma DeleteOutcomes(id: string, removal: Settled<seq<Comment>>)
    requires !IdRejected(id)
    ensures removal == Resolved([]) ==>
      Respond(DeleteCommentById(id, removal)) == Response(404, MessageBody(CannotDeleteComment))
    ensures removal.Resolved? && removal.value != [] ==>
      Respond(DeleteCommentById(id, removal)) == Response(204, NoContent)
    ensures removal.Rejected? ==>
      Respond(DeleteCommentById(id, removal)) == Response(500, MessageBody(removal.error.message))
  {
  }
}
