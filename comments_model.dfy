/**
 * models/comments.js: the comments of one article, newest first, and the way
 * the lookup classifies what the store answers.
 */
module CommentsModel {
  import opened JsRuntime
  import opened Tables

  const NoCommentsFound: string := "No comments found with matching article ID"

  /** The sort key of the query's ORDER BY. */
  const CommentCreatedAt: Comment -> int := (c: Comment) => c.createdAt

  /** `rows` is an answer the store may give to the query of selectCommentsById for `key`. */
  ghost predicate IsCommentsAnswer(db: Db, key: int, rows: seq<Comment>)
  {
    OrderedAnswer(rows, CommentsOn(db.comments, key), CommentCreatedAt)
  }

  /**
   * `answer` is one the store may give to that query when $1 is the id's
   * text: the comments on the article with the integer the text stands for,
   * newest first, or PostgreSQL's error when it stands for none.
   */
  ghost predicate IsCommentsLookup(db: Db, id: string, answer: QueryResult<Comment>)
  {
    match PgInteger(id)
    case None => answer == QueryFailed(PgIntegerError(id))
    case Some(key) => answer.Rows? && IsCommentsAnswer(db, key, answer.rows)
  }

  /** One answer to that query, so that every table has one. */
  function CommentsAnswerOf(db: Db, key: int): (rows: seq<Comment>)
    ensures IsCommentsAnswer(db, key, rows)
  {
    SortDescending(CommentsOn(db.comments, key), CommentCreatedAt)
  }

  /**
   * selectCommentsById(id): resolves with the rows when there are some. On no
   * rows it rejects with 404 "No comments found with matching article ID" (the
   * resolve after the reject has no effect); on a store failure it rejects with
   * status 400 and the message "Bad Request: ID must be a number".
   */
  function SelectCommentsById(answer: QueryResult<Comment>): (p: Settled<seq<Comment>>)
    ensures p.Resolved? <==> answer.Rows? && answer.rows != []
    ensures p.Resolved? ==> p.value == answer.rows
    ensures answer == Rows([]) ==> p == Rejected(JsError(Some(404), NoCommentsFound))
    ensures answer.QueryFailed? ==> p == Rejected(JsError(Some(400), IdMustBeNumber))
  {
    match answer
    case Rows(rows) =>
      FirstSettlement((if |rows| == 0 then [Rejected(JsError(Some(404), NoCommentsFound))] else [])
                      + [Resolved(rows)])
    case QueryFailed(_) =>
      FirstSettlement([Rejected(JsError(Some(400), IdMustBeNumber))])
  }

  /**
   * Looking an article's comments up in the table: the lookup resolves exactly
   * when the article has comments, with exactly those comments, as many as the
   * listing's comment count, newest first; otherwise it rejects with 404.
   */
  lemma {:induction false} SelectCommentsByIdOnTable(db: Db, key: int, rows: seq<Comment>)
    requires IsCommentsAnswer(db, key, rows)
    ensures var p := SelectCommentsById(Rows(rows));
      && (p.Resolved? <==> CommentCount(db.comments, key) > 0)
      && (p.Resolved? ==> |p.value| == CommentCount(db.comments, key))
      && (p.Resolved? ==> forall c :: c in p.value <==> c in db.comments && c.articleId == key)
      && (p.Resolved? ==> forall i, j :: 0 <= i < j < |p.value| ==> p.value[i].createdAt >= p.value[j].createdAt)
      && (p.Rejected? ==> p.error == JsError(Some(404), NoCommentsFound))
  {
    var on := CommentsOn(db.comments, key);
    OrderedAnswerMembers(rows, on, CommentCreatedAt);
    CommentsOnCounted(db.comments, key);
    forall c
      ensures c in rows <==> c in db.comments && c.articleId == key
    {
      assert c in on <==> c in multiset(on);
      assert c in db.comments <==> c in multiset(db.comments);
    }
    forall i, j | 0 <= i < j < |rows|
      ensures rows[i].createdAt >= rows[j].createdAt
    {
      assert CommentCreatedAt(rows[i]) >= CommentCreatedAt(rows[j]);
    }
  }
}
