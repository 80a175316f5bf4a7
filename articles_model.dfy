/**
 * models/articles.js: the article listing query and the lookup by id, with
 * the way each classifies what the store answers.
 */
module ArticlesModel {
  import opened JsRuntime
  import opened Tables

  const ArticleNotFound: string := "Article not found"

  /** The sort key of the listing's ORDER BY. */
  const RowCreatedAt: ListingRow -> int := (r: ListingRow) => r.createdAt

  /**
   * The row the listing query yields for one article: its columns except
   * `body`, and COUNT(comments.article_id) over the LEFT JOIN on article_id.
   */
  function ListingRowOf(a: Article, comments: seq<Comment>): ListingRow
  {
    ListingRow(a.author, a.title, a.articleId, a.topic, a.createdAt, a.votes, a.articleImgUrl,
               CommentCount(comments, a.articleId))
  }

  /**
   * The listing's rows before ORDER BY: one per article, since article_id is
   * the articles table's key and the query groups by it.
   */
  function UnorderedListing(db: Db): seq<ListingRow>
  {
    seq(|db.articles|, i requires 0 <= i < |db.articles| => ListingRowOf(db.articles[i], db.comments))
  }

  /** `rows` is an answer the store may give to the listing query of selectArticles. */
  ghost predicate IsListing(db: Db, rows: seq<ListingRow>)
  {
    OrderedAnswer(rows, UnorderedListing(db), RowCreatedAt)
  }

  /** One answer to the listing query, so that every table has one. */
  function ListingOf(db: Db): (rows: seq<ListingRow>)
    ensures IsListing(db, rows)
  {
    SortDescending(UnorderedListing(db), RowCreatedAt)
  }

  /**
   * selectArticles(): no argument reaches the query. It resolves with the
   * rows the store returns and rejects with pg's own error, which has no
   * status, when the query fails.
   */
  function SelectArticles(answer: QueryResult<ListingRow>): (p: Settled<seq<ListingRow>>)
    ensures p.Resolved? <==> answer.Rows?
    ensures p.Resolved? ==> p.value == answer.rows
    ensures p.Rejected? ==> p.error.status.None? && p.error.message == answer.message
  {
    match answer
    case Rows(rows) => Resolved(rows)
    case QueryFailed(message) => Rejected(JsError(None, message))
  }

  /**
   * Every answer to the listing query lists every article and only articles,
   * newest first, each row carrying the live number of comments on it.
   */
  lemma {:induction false} ListingRowsAreArticles(db: Db, rows: seq<ListingRow>)
    requires IsListing(db, rows)
    ensures |rows| == |db.articles|
    ensures forall a :: a in db.articles ==> ListingRowOf(a, db.comments) in rows
    ensures forall r :: r in rows ==> exists a :: a in db.articles && r == ListingRowOf(a, db.comments)
    ensures forall r :: r in rows ==> r.commentCount == CommentCount(db.comments, r.articleId)
    ensures forall i, j :: 0 <= i < j < |rows| ==> rows[i].createdAt >= rows[j].createdAt
  {
    var u := UnorderedListing(db);
    OrderedAnswerMembers(rows, u, RowCreatedAt);
    forall a | a in db.articles
      ensures ListingRowOf(a, db.comments) in rows
    {
      var i :| 0 <= i < |db.articles| && db.articles[i] == a;
      assert u[i] == ListingRowOf(a, db.comments);
    }
    forall r | r in rows
      ensures exists a :: a in db.articles && r == ListingRowOf(a, db.comments)
    {
      var i :| 0 <= i < |u| && u[i] == r;
      assert db.articles[i] in db.articles;
    }
    forall i, j | 0 <= i < j < |rows|
      ensures rows[i].createdAt >= rows[j].createdAt
    {
      assert RowCreatedAt(rows[i]) >= RowCreatedAt(rows[j]);
    }
  }

  /** article_id is the key of the articles table. */
  ghost predicate DistinctArticleIds(articles: seq<Article>)
  {
    forall i, j :: 0 <= i < j < |articles| ==> articles[i].articleId != articles[j].articleId
  }

  lemma {:induction false} AtMostOnceWhenIdsDistinct(s: seq<ListingRow>, v: ListingRow)
    requires forall i, j :: 0 <= i < j < |s| ==> s[i].articleId != s[j].articleId
    ensures multiset(s)[v] <= 1
  {
    if s != [] {
      assert s == [s[0]] + s[1..];
      AtMostOnceWhenIdsDistinct(s[1..], v);
      if s[0] == v {
        assert v !in s[1..];
      }
    }
  }

  lemma TwiceWhenRepeated<T>(s: seq<T>, i: nat, j: nat)
    requires i < j < |s| && s[i] == s[j]
    ensures multiset(s)[s[i]] >= 2
  {
    assert s == s[..i] + [s[i]] + s[i + 1..j] + [s[j]] + s[j + 1..];
  }

  /** With article_id a key, no article is listed twice. */
  lemma {:induction false} ListingOneRowPerArticle(db: Db, rows: seq<ListingRow>)
    requires IsListing(db, rows)
    requires DistinctArticleIds(db.articles)
    ensures forall i, j :: 0 <= i < j < |rows| ==> rows[i].articleId != rows[j].articleId
  {
    var u := UnorderedListing(db);
    OrderedAnswerMembers(rows, u, RowCreatedAt);
    forall i, j | 0 <= i < j < |rows|
      ensures rows[i].articleId != rows[j].articleId
    {
      if rows[i].articleId == rows[j].articleId {
        assert rows[i] in u && rows[j] in u;
        var p :| 0 <= p < |u| && u[p] == rows[i];
        var q :| 0 <= q < |u| && u[q] == rows[j];
        assert db.articles[p].articleId == db.articles[q].articleId;
        assert p == q;
        TwiceWhenRepeated(rows, i, j);
        AtMostOnceWhenIdsDistinct(u, rows[i]);
        assert false;
      }
    }
  }

  /**
   * selectArticleById(id): resolves with the rows when there are some. On no
   * rows it rejects with 404 "Article not found" (the resolve after the reject
   * has no effect); on a store failure it rejects with status 400 and the
   * message "Bad Request: ID must be a number", whatever pg said.
   */
  function SelectArticleById(answer: QueryResult<Article>): (p: Settled<seq<Article>>)
    ensures p.Resolved? <==> answer.Rows? && answer.rows != []
    ensures p.Resolved? ==> p.value == answer.rows
    ensures answer == Rows([]) ==> p == Rejected(JsError(Some(404), ArticleNotFound))
    ensures answer.QueryFailed? ==> p == Rejected(JsError(Some(400), IdMustBeNumber))
  {
    match answer
    case Rows(rows) =>
      FirstSettlement((if |rows| == 0 then [Rejected(JsError(Some(404), ArticleNotFound))] else [])
                      + [Resolved(rows)])
    case QueryFailed(_) =>
      FirstSettlement([Rejected(JsError(Some(400), IdMustBeNumber))])
  }

  /**
   * The answer `SELECT * FROM articles WHERE article_id = $1` gets when $1 is
   * the id's text: the articles with the integer the text stands for, or
   * PostgreSQL's error when it stands for none.
   */
  function ArticleLookup(db: Db, id: string): QueryResult<Article>
  {
    match PgInteger(id)
    case None => QueryFailed(PgIntegerError(id))
    case Some(key) => Rows(ArticlesWithId(db.articles, key))
  }

  /**
   * Looking an id up in the table: the lookup resolves exactly when an
   * article has that id, with exactly the articles that have it, and
   * otherwise rejects with 404 "Article not found".
   */
  lemma SelectArticleByIdOnTable(db: Db, key: int)
    ensures var p := SelectArticleById(Rows(ArticlesWithId(db.articles, key)));
      && (p.Resolved? <==> exists a :: a in db.articles && a.articleId == key)
      && (p.Resolved? ==> forall a :: a in p.value <==> a in db.articles && a.articleId == key)
      && (p.Rejected? ==> p.error == JsError(Some(404), ArticleNotFound))
  {
    var rows := ArticlesWithId(db.articles, key);
    if exists a :: a in db.articles && a.articleId == key {
      var a :| a in db.articles && a.articleId == key;
      assert a in rows;
    }
    if rows != [] {
      assert rows[0] in rows;
    }
  }
}
