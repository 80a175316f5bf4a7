/**
 * controllers/articles.js: the article listing handler (defaults, the sort
 * column whitelist, the page and order checks, the topic/author
 * normalisation), the lookup by id and the vote update, each deciding what
 * the request gets from its inputs and from what the store calls settle with.
 */
module ArticlesController {
  import opened JsRuntime
  import opened Tables
  import opened ArticlesModel
  import opened App

  const InvalidSortCategory: string := "Invalid sort category"
  const PageMustBeNumber: string := "Page must be a number"
  const InvalidSortOrder: string := "Invalid sort order (must be 'asc' or 'desc')"
  const MissingVote: string := "Bad Request: Missing vote increment amount or request formatted incorrectly"
  const CannotEditVotes: string := "Cannot edit votes of article that does not exist"
  /** The TypeError V8 throws when `toUpperCase` is called on a value that is not a string. */
  const OrderNotAString: string := "queries.sortOrder.toUpperCase is not a function"

  /** The columns `sort_by` may name. */
  const SortColumns: seq<string> :=
    ["author", "title", "article_id", "topic", "created_at", "votes", "article_img_url", "comment_count"]

  /** The query-string values of a listing request (`req.query`). */
  datatype ArticleQuery = ArticleQuery(sortBy: JsValue, order: JsValue, p: JsValue, topic: JsValue, author: JsValue)

  /** The `queries` object the handler builds and hands to selectArticles. */
  datatype Queries = Queries(sortColumn: JsValue, sortOrder: JsValue, page: JsValue, topic: JsValue, author: JsValue)

  /** `v ? v : d`. */
  function OrDefault(v: JsValue, d: string): JsValue
  {
    if Truthy(v) then v else Str(d)
  }

  /** `[...columns].includes(v)`: only a string equal to a listed name is found. */
  predicate SortColumnListed(v: JsValue)
  {
    v.Str? && v.s in SortColumns
  }

  /** `parseInt(queries.page) === NaN`, for a page whose conversion to a string does not throw. */
  predicate PageCheckFires(page: JsValue)
    requires ConvertsToString(page)
  {
    StrictEquals(ParseInt(ToString(page)), NaN)
  }

  /** Whatever the page is, `parseInt(page) === NaN` is false. */
  lemma PageCheckNeverFires(page: JsValue)
    requires ConvertsToString(page)
    ensures !PageCheckFires(page)
  {
    NothingStrictlyEqualsNaN(ParseInt(ToString(page)));
  }

  /** `["ASC", "DESC"].includes(order.toUpperCase())`. */
  predicate OrderListed(order: string)
  {
    ToUpperCase(order) == "ASC" || ToUpperCase(order) == "DESC"
  }

  /** The messages of the 400 answers are told apart by their lengths. */
  lemma MessagesDiffer()
    ensures |InvalidSortCategory| == 21 && |PageMustBeNumber| == 21 && |InvalidSortOrder| == 44
    ensures InvalidSortCategory != PageMustBeNumber
    ensures |IdMustBeNumber| == 32 && |MissingVote| == 75
  {
    assert InvalidSortCategory[0] != PageMustBeNumber[0];
  }

  /** Whether the request gets past every check and reaches selectArticles. */
  predicate QueryAccepted(q: ArticleQuery)
  {
    var order := OrDefault(q.order, "DESC");
    && SortColumnListed(OrDefault(q.sortBy, "created_at"))
    && ConvertsToString(OrDefault(q.p, "1"))
    && order.Str? && OrderListed(order.s)
  }

  /** `.then` sends the rows with 200; `.catch` passes the rejection on as a 500. */
  function ListingOutcome(p: Settled<seq<ListingRow>>): Handled
  {
    match p
    case Resolved(articles) => Send(200, ArticlesBody(articles))
    case Rejected(e) => Next(CatchAs500(e))
  }

  /**
   * What getArticles does with a request, given the answer the listing query
   * gets from the store: the checks in the order the handler makes them,
   * then the listing.
   */
  function ArticlesOutcome(q: ArticleQuery, answer: QueryResult<ListingRow>): (h: Handled)
    ensures h.Send? ==> answer.Rows? && h == Send(200, ArticlesBody(answer.rows))
    ensures h.Next? && h.error.status == Some(400) ==>
      h.error.message == InvalidSortCategory || h.error.message == InvalidSortOrder
    ensures h.Next? ==> h.error.status != Some(404)
  {
    var sortColumn := OrDefault(q.sortBy, "created_at");
    var sortOrder := OrDefault(q.order, "DESC");
    var page := OrDefault(q.p, "1");
    if !SortColumnListed(sortColumn) then Next(JsError(Some(400), InvalidSortCategory))
    else if !ConvertsToString(page) then Next(JsError(None, CannotConvertToPrimitive))
    else if PageCheckFires(page) then Next(JsError(Some(400), PageMustBeNumber))
    else if !sortOrder.Str? then Next(JsError(None, OrderNotAString))
    else if !OrderListed(sortOrder.s) then Next(JsError(Some(400), InvalidSortOrder))
    else ListingOutcome(SelectArticles(answer))
  }

  /**
   * getArticles: builds `queries` field by field from the query string and
   * its defaults, checks it, replaces a non-string topic or author with null,
   * and hands it to selectArticles. `passed` is the object selectArticles
   * receives, None when a check stops the request first.
   */
  method GetArticles(q: ArticleQuery, answer: QueryResult<ListingRow>) returns (h: Handled, passed: Option<Queries>)
    ensures h == ArticlesOutcome(q, answer)
    ensures passed.Some? <==> QueryAccepted(q)
    ensures passed.Some? ==>
      && passed.value.sortColumn == (if Truthy(q.sortBy) then q.sortBy else Str("created_at"))
      && passed.value.sortOrder == (if Truthy(q.order) then q.order else Str("DESC"))
      && passed.value.page == (if Truthy(q.p) then q.p else Str("1"))
      && passed.value.topic == (if q.topic.Str? then q.topic else Null)
      && passed.value.author == (if q.author.Str? then q.author else Null)
  {
    var queries := Queries(Undefined, Undefined, Undefined, Undefined, Undefined);
    queries := queries.(sortColumn := if Truthy(q.sortBy) then q.sortBy else Str("created_at"));
    queries := queries.(sortOrder := if Truthy(q.order) then q.order else Str("DESC"));
    queries := queries.(page := if Truthy(q.p) then q.p else Str("1"));
    queries := queries.(topic := q.topic);
    queries := queries.(author := q.author);

    if !SortColumnListed(queries.sortColumn) {
      h, passed := Next(JsError(Some(400), InvalidSortCategory)), None;
      return;
    }
    if !ConvertsToString(queries.page) {
      h, passed := Next(JsError(None, CannotConvertToPrimitive)), None;
      return;
    }
    if PageCheckFires(queries.page) {
      h, passed := Next(JsError(Some(400), PageMustBeNumber)), None;
      return;
    }
    if !queries.sortOrder.Str? {
      h, passed := Next(JsError(None, OrderNotAString)), None;
      return;
    }
    if !OrderListed(queries.sortOrder.s) {
      h, passed := Next(JsError(Some(400), InvalidSortOrder)), None;
      return;
    }
    if !queries.topic.Str? {
      queries := queries.(topic := Null);
    }
    if !queries.author.Str? {
      queries := queries.(author := Null);
    }
    passed := Some(queries);
    h := ListingOutcome(SelectArticles(answer));
  }

  /** The request a client sends when it leaves `sort_by`, `order` and `p` out. */
  lemma DefaultsAccepted(q: ArticleQuery)
    requires q.sortBy == Undefined && q.order == Undefined && q.p == Undefined
    ensures QueryAccepted(q)
    ensures OrDefault(q.sortBy, "created_at") == Str("created_at")
    ensures OrDefault(q.order, "DESC") == Str("DESC")
    ensures OrDefault(q.p, "1") == Str("1")
  {
    assert SortColumns[4] == "created_at";
    assert ToUpperCase("DESC") == "DESC";
  }

  /**
   * A `sort_by` outside the eight columns is answered with 400 "Invalid sort
   * category", and nothing else is: whatever `order` and `p` say, the sort
   * column is checked first.
   */
  lemma SortCategoryCheckedFirst(q: ArticleQuery, answer: QueryResult<ListingRow>)
    ensures Respond(ArticlesOutcome(q, answer)) == Response(400, MessageBody(InvalidSortCategory))
        <==> Truthy(q.sortBy) && !(q.sortBy.Str? && q.sortBy.s in SortColumns)
  {
    SortColumnDefaulted(q);
    if SortColumnListed(OrDefault(q.sortBy, "created_at")) {
      ListedSortNotRejected(q, answer);
    }
  }

  /** The default sort column is listed, so only a given `sort_by` can fail the check. */
  lemma SortColumnDefaulted(q: ArticleQuery)
    ensures SortColumnListed(OrDefault(q.sortBy, "created_at"))
        <==> !Truthy(q.sortBy) || (q.sortBy.Str? && q.sortBy.s in SortColumns)
  {
    if !Truthy(q.sortBy) {
      assert SortColumns[4] == "created_at";
    }
  }

  /** Past the sort check, no later branch answers with the sort category's 400. */
  lemma ListedSortNotRejected(q: ArticleQuery, answer: QueryResult<ListingRow>)
    requires SortColumnListed(OrDefault(q.sortBy, "created_at"))
    ensures Respond(ArticlesOutcome(q, answer)) != Response(400, MessageBody(InvalidSortCategory))
  {
    MessagesDiffer();
  }

  /** `parseInt(..) === NaN` is false whatever the page is: the page check never rejects. */
  lemma PageNeverRejected(q: ArticleQuery, answer: QueryResult<ListingRow>)
    ensures Respond(ArticlesOutcome(q, answer)) != Response(400, MessageBody(PageMustBeNumber))
  {
    MessagesDiffer();
  }

  /** The spellings of "asc" whose upper-case form is "ASC", the long s included. */
  predicate AscSpelling(s: string)
  {
    && |s| == 3
    && (s[0] == 'a' || s[0] == 'A')
    && (s[1] == 's' || s[1] == 'S' || s[1] == LongS)
    && (s[2] == 'c' || s[2] == 'C')
  }

  /** The spellings of "desc" whose upper-case form is "DESC", the long s included. */
  predicate DescSpelling(s: string)
  {
    && |s| == 4
    && (s[0] == 'd' || s[0] == 'D')
    && (s[1] == 'e' || s[1] == 'E')
    && (s[2] == 's' || s[2] == 'S' || s[2] == LongS)
    && (s[3] == 'c' || s[3] == 'C')
  }

  /** The characters that upper-case to a given capital letter. */
  lemma UpperCharIs(c: char, capital: char)
    requires 'A' <= capital <= 'Z'
    ensures UpperChar(c) == capital <==>
      c == capital || c as int == capital as int + 32 || (capital == 'S' && c == LongS)
  {
  }

  /** Upper-casing gives the word exactly when each character upper-cases to the word's letter. */
  lemma UpperCaseIs(s: string, word: string)
    ensures ToUpperCase(s) == word <==> |s| == |word| && forall i :: 0 <= i < |s| ==> UpperChar(s[i]) == word[i]
  {
    if |s| == |word| && forall i :: 0 <= i < |s| ==> UpperChar(s[i]) == word[i] {
      assert forall i :: 0 <= i < |s| ==> ToUpperCase(s)[i] == word[i];
    }
  }

  /**
   * An order string is accepted exactly when it spells "asc" or "desc" in
   * any mix of cases, where the long s stands for an s as well.
   */
  lemma {:induction false} OrderListedIff(s: string)
    ensures OrderListed(s) <==> AscSpelling(s) || DescSpelling(s)
  {
    UpperCaseIs(s, "ASC");
    UpperCaseIs(s, "DESC");
    if |s| == 3 {
      UpperCharIs(s[0], 'A');
      UpperCharIs(s[1], 'S');
      UpperCharIs(s[2], 'C');
      assert (forall i :: 0 <= i < 3 ==> UpperChar(s[i]) == "ASC"[i])
        <==> UpperChar(s[0]) == 'A' && UpperChar(s[1]) == 'S' && UpperChar(s[2]) == 'C';
    }
    if |s| == 4 {
      UpperCharIs(s[0], 'D');
      UpperCharIs(s[1], 'E');
      UpperCharIs(s[2], 'S');
      UpperCharIs(s[3], 'C');
      assert (forall i :: 0 <= i < 4 ==> UpperChar(s[i]) == "DESC"[i])
        <==> UpperChar(s[0]) == 'D' && UpperChar(s[1]) == 'E' && UpperChar(s[2]) == 'S' && UpperChar(s[3]) == 'C';
    }
  }

  /**
   * With a valid sort column, an order string is answered with 400 "Invalid
   * sort order" exactly when the page converts to a string and the order
   * does not upper-case to "ASC" or "DESC"; an order that is not a string at
   * all (an array or an object from the query string) makes `toUpperCase`
   * throw, which the app answers with 500.
   */
  lemma OrderCheck(q: ArticleQuery, answer: QueryResult<ListingRow>)
    requires SortColumnListed(OrDefault(q.sortBy, "created_at"))
    ensures Respond(ArticlesOutcome(q, answer)) == Response(400, MessageBody(InvalidSortOrder))
        <==> ConvertsToString(OrDefault(q.p, "1")) && q.order.Str? && Truthy(q.order) && !OrderListed(q.order.s)
    ensures Truthy(q.order) && !q.order.Str? ==>
      Respond(ArticlesOutcome(q, answer)) == Response(500, MessageBody(InternalServerError))
  {
    OrderDefaulted(q);
    MessagesDiffer();
  }

  /**
   * With a valid sort column, a page whose conversion to a string throws (an
   * object with its own `toString` key, as `p[toString]=1` gives) is answered
   * with 500 "Internal Server Error" before the order is looked at.
   */
  lemma PageConversionThrows(q: ArticleQuery, answer: QueryResult<ListingRow>)
    requires SortColumnListed(OrDefault(q.sortBy, "created_at"))
    requires !ConvertsToString(OrDefault(q.p, "1"))
    ensures Respond(ArticlesOutcome(q, answer)) == Response(500, MessageBody(InternalServerError))
    ensures !QueryAccepted(q)
  {
  }

  /** The default order is accepted, so only a given `order` can fail the check or throw. */
  lemma OrderDefaulted(q: ArticleQuery)
    ensures OrDefault(q.order, "DESC").Str? <==> !Truthy(q.order) || q.order.Str?
    ensures OrDefault(q.order, "DESC").Str? && OrderListed(OrDefault(q.order, "DESC").s)
        <==> !Truthy(q.order) || (q.order.Str? && OrderListed(q.order.s))
  {
    if !Truthy(q.order) {
      assert ToUpperCase("DESC") == "DESC";
    }
  }

  /**
   * selectArticles receives no argument: once a request passes the checks,
   * what it gets does not depend on `sort_by`, `order`, `p`, `topic` or
   * `author`, so two accepted requests get the same answer.
   */
  lemma QueryValuesIgnored(q1: ArticleQuery, q2: ArticleQuery, answer: QueryResult<ListingRow>)
    requires QueryAccepted(q1) && QueryAccepted(q2)
    ensures ArticlesOutcome(q1, answer) == ArticlesOutcome(q2, answer)
    ensures answer.Rows? ==> ArticlesOutcome(q1, answer) == Send(200, ArticlesBody(answer.rows))
  {
  }

  /**
   * An accepted request is sent every article once per row of the store's
   * answer, newest first, with the live comment count, whatever column or
   * direction it asked to sort by.
   */
  lemma {:induction false} ListingServed(db: Db, q: ArticleQuery, rows: seq<ListingRow>)
    requires QueryAccepted(q)
    requires IsListing(db, rows)
    ensures var r := Respond(ArticlesOutcome(q, Rows(rows)));
      && r == Response(200, ArticlesBody(rows))
      && |r.body.articles| == |db.articles|
      && (forall a :: a in db.articles ==> ListingRowOf(a, db.comments) in r.body.articles)
      && (forall x :: x in r.body.articles ==> x.commentCount == CommentCount(db.comments, x.articleId))
      && (forall i, j :: 0 <= i < j < |r.body.articles| ==>
            r.body.articles[i].createdAt >= r.body.articles[j].createdAt)
  {
    ListingRowsAreArticles(db, rows);
  }

  /** A failing listing query is answered with 500 and pg's own message. */
  lemma ListingFailureLeaksMessage(q: ArticleQuery, message: string)
    requires QueryAccepted(q)
    ensures Respond(ArticlesOutcome(q, QueryFailed(message))) == Response(500, MessageBody(message))
  {
  }

  // ---------------------------------------------------------------------------
  // getArticleById (GET /api/articles/:article_id)
  // ---------------------------------------------------------------------------

  /**
   * getArticleById: the id check, then the lookup. A rejected lookup, the
   * model's "Article not found" included, is passed on as a 500.
   */
  function GetArticleById(id: string, lookup: QueryResult<Article>): (h: Handled)
    ensures h.Send? ==> lookup.Rows? && lookup.rows != [] && h == Send(200, ArticleBody(lookup.rows))
    ensures h.Next? ==> h.error.status == if IdRejected(id) then Some(400) else Some(500)
  {
    if IdRejected(id) then Next(JsError(Some(400), IdMustBeNumber))
    else
      match SelectArticleById(lookup)
      case Rejected(e) => Next(CatchAs500(e))
      case Resolved(article) =>
        if |article| == 0 then Next(JsError(Some(404), ArticleNotFound))
        else Send(200, ArticleBody(article))
  }

  /**
   * The id is answered with 400 "Bad Request: ID must be a number" exactly
   * when parseInt finds no number at its start, and then the store is not
   * consulted: the answer is the same whatever the lookup would have said.
   */
  lemma ArticleIdCheck(id: string, lookup: QueryResult<Article>, other: QueryResult<Article>)
    ensures Respond(GetArticleById(id, lookup)) == Response(400, MessageBody(IdMustBeNumber)) <==> IdRejected(id)
    ensures IdRejected(id) ==> GetArticleById(id, lookup) == GetArticleById(id, other)
  {
  }

  /** A decimal numeral followed by text that does not continue it passes the id check: "12abc" does. */
  lemma NumeralPrefixAccepted(n: int, rest: string)
    requires rest == [] || !IsDigit(rest[0], 10)
    requires n == 0 ==> rest == [] || (rest[0] != 'x' && rest[0] != 'X')
    ensures !IdRejected(DecimalString(n) + rest)
  {
    ParseIntOfNumeralPrefix(n, rest);
  }

  /**
   * getArticleById never answers 404: a missing article is answered with 500
   * "Article not found", a failing query with 500 "Bad Request: ID must be a
   * number".
   */
  lemma ArticleByIdOutcomes(id: string, lookup: QueryResult<Article>)
    ensures Respond(GetArticleById(id, lookup)).status != 404
    ensures !IdRejected(id) && lookup == Rows([]) ==>
      Respond(GetArticleById(id, lookup)) == Response(500, MessageBody(ArticleNotFound))
    ensures !IdRejected(id) && lookup.QueryFailed? ==>
      Respond(GetArticleById(id, lookup)) == Response(500, MessageBody(IdMustBeNumber))
    ensures !IdRejected(id) && lookup.Rows? && lookup.rows != [] ==>
      Respond(GetArticleById(id, lookup)) == Response(200, ArticleBody(lookup.rows))
  {
  }

  /**
   * Against the table, with the id's text sent as the query's parameter: an
   * id parseInt refuses gets 400; an id parseInt accepts but PostgreSQL does
   * not read as an integer ("12abc", "99999999999") gets 500 "Bad Request:
   * ID must be a number"; any other gets 200 with exactly the articles with
   * the integer it stands for when there are some, and 500 "Article not
   * found" otherwise.
   */
  lemma GetArticleByIdOnTable(db: Db, id: string)
    ensures var r := Respond(GetArticleById(id, ArticleLookup(db, id)));
      && (IdRejected(id) ==> r == Response(400, MessageBody(IdMustBeNumber)))
      && (!IdRejected(id) && PgInteger(id).None? ==> r == Response(500, MessageBody(IdMustBeNumber)))
      && (PgInteger(id).Some? ==>
            var key := PgInteger(id).value;
            && (r.status == 200 <==> exists a :: a in db.articles && a.articleId == key)
            && (r.status == 200 ==>
                  r.body.ArticleBody? && forall a :: a in r.body.article <==> a in db.articles && a.articleId == key)
            && (r.status != 200 ==> r == Response(500, MessageBody(ArticleNotFound))))
  {
    if PgInteger(id).Some? {
      PgIntegerPassesIdCheck(id);
      SelectArticleByIdOnTable(db, PgInteger(id).value);
    }
  }

  /**
   * GET /api/articles/<String(k)> is answered with 200 and exactly the
   * articles with id k when there are some, and 500 "Article not found"
   * otherwise.
   */
  lemma ArticleByNumeralId(db: Db, k: int)
    requires Int4Min <= k <= Int4Max
    ensures var r := Respond(GetArticleById(DecimalString(k), ArticleLookup(db, DecimalString(k))));
      && (r.status == 200 <==> exists a :: a in db.articles && a.articleId == k)
      && (r.status == 200 ==>
            r.body.ArticleBody? && forall a :: a in r.body.article <==> a in db.articles && a.articleId == k)
      && (r.status != 200 ==> r == Response(500, MessageBody(ArticleNotFound)))
  {
    PgIntegerOfDecimal(k);
    GetArticleByIdOnTable(db, DecimalString(k));
  }

  /**
   * A numeral followed by letters, such as "12abc", passes the id check but
   * not PostgreSQL's integer input: it is answered with 500 "Bad Request: ID
   * must be a number", whatever the table holds.
   */
  lemma NumeralWithTextIsServerError(db: Db, n: int, rest: string)
    requires rest != [] && !IsDigit(rest[0], 10) && !IsPgSpace(rest[0])
    requires n == 0 ==> rest[0] != 'x' && rest[0] != 'X'
    ensures Respond(GetArticleById(DecimalString(n) + rest, ArticleLookup(db, DecimalString(n) + rest)))
         == Response(500, MessageBody(IdMustBeNumber))
  {
    NumeralPrefixAccepted(n, rest);
    TrailingTextRefused(n, rest);
    GetArticleByIdOnTable(db, DecimalString(n) + rest);
  }

  // ---------------------------------------------------------------------------
  // patchArticleById (no route in app.js reaches it)
  // ---------------------------------------------------------------------------

  /**
   * The vote check throws on a body whose property reads do not: its first
   * two tests pass and `parseInt` is reached with an `inc_votes` whose
   * conversion to a string throws.
   */
  predicate VoteCheckThrows(body: JsValue)
    requires !Nullish(body)
  {
    var incVotes := Field(body, "inc_votes");
    Truthy(incVotes) && TypeofObject(body) && !ConvertsToString(incVotes)
  }

  /**
   * The vote check, when it does not throw: a falsy `inc_votes`, a body that
   * is not an object, or `parseInt(..) === NaN`.
   */
  predicate VoteRejected(body: JsValue)
    requires !Nullish(body) && !VoteCheckThrows(body)
  {
    var incVotes := Field(body, "inc_votes");
    !Truthy(incVotes) || !TypeofObject(body) || StrictEquals(ParseInt(ToString(incVotes)), NaN)
  }

  /** Only a falsy `inc_votes` is rejected: "abc" and `{"x": 1}` are let through. */
  lemma VoteRejectedIff(body: JsValue)
    requires !Nullish(body) && !VoteCheckThrows(body)
    ensures VoteRejected(body) <==> !Truthy(Field(body, "inc_votes"))
  {
  }

  /**
   * patchArticleById: the id check, the vote check (reading `inc_votes` of an
   * undefined or null body throws), then the lookup, and only once the lookup
   * has resolved, the update. Rejections of either are passed on as a 500.
   */
  function PatchArticleById(id: string, body: JsValue, lookup: QueryResult<Article>,
                            update: Settled<seq<Article>>): (h: Handled)
    ensures h.Send? ==> h.status == 200
    ensures h.Next? ==> h.error.status != Some(404)
    ensures h.Next? && h.error.status == Some(400) ==> h.error.message == IdMustBeNumber || h.error.message == MissingVote
  {
    if IdRejected(id) then Next(JsError(Some(400), IdMustBeNumber))
    else if Nullish(body) then Next(ReadTypeError(body, "inc_votes"))
    else if VoteCheckThrows(body) then Next(JsError(None, CannotConvertToPrimitive))
    else if VoteRejected(body) then Next(JsError(Some(400), MissingVote))
    else VoteUpdate(lookup, update)
  }

  /**
   * The promise chain of patchArticleById once the checks pass: the lookup,
   * then, in its `.then`, the update. What comes of it is a 200 with the
   * updated rows or a 500; the 404 of the `.then` is never reached.
   */
  function VoteUpdate(lookup: QueryResult<Article>, update: Settled<seq<Article>>): (h: Handled)
    ensures h.Send? ==> h.status == 200
    ensures h.Next? ==> h.error.status == Some(500)
  {
    match SelectArticleById(lookup)
    case Rejected(e) => Next(CatchAs500(e))
    case Resolved(article) =>
      if |article| == 0 then Next(JsError(Some(404), CannotEditVotes))
      else
        match update
        case Resolved(updated) => Send(200, ArticleBody(updated))
        case Rejected(e) => Next(CatchAs500(e))
  }

  /** The id check comes first and consults neither the body nor the store. */
  lemma PatchIdCheck(id: string, body: JsValue, lookup: QueryResult<Article>, update: Settled<seq<Article>>,
                     body2: JsValue, lookup2: QueryResult<Article>, update2: Settled<seq<Article>>)
    ensures Respond(PatchArticleById(id, body, lookup, update)) == Response(400, MessageBody(IdMustBeNumber))
        <==> IdRejected(id)
    ensures IdRejected(id) ==>
      PatchArticleById(id, body, lookup, update) == PatchArticleById(id, body2, lookup2, update2)
  {
    MessagesDiffer();
    if !IdRejected(id) {
      var h := PatchArticleById(id, body, lookup, update);
      assert h.Send? || h.error.status != Some(400) || h.error.message == MissingVote;
    }
  }

  /**
   * With a valid id and a body that is not undefined or null, the request is
   * answered with 400 "Missing vote increment" exactly when `inc_votes` is
   * falsy; an undefined or null body, or an `inc_votes` whose conversion to a
   * string throws, makes the handler throw, which the app answers with 500.
   */
  lemma PatchVoteCheck(id: string, body: JsValue, lookup: QueryResult<Article>, update: Settled<seq<Article>>)
    requires !IdRejected(id)
    ensures !Nullish(body) ==>
      (Respond(PatchArticleById(id, body, lookup, update)) == Response(400, MessageBody(MissingVote))
       <==> !Truthy(Field(body, "inc_votes")))
    ensures Nullish(body) ==>
      Respond(PatchArticleById(id, body, lookup, update)) == Response(500, MessageBody(InternalServerError))
    ensures !Nullish(body) && VoteCheckThrows(body) ==>
      Respond(PatchArticleById(id, body, lookup, update)) == Response(500, MessageBody(InternalServerError))
  {
    MessagesDiffer();
    var h := PatchArticleById(id, body, lookup, update);
    if Nullish(body) {
      assert h == Next(ReadTypeError(body, "inc_votes"));
    } else if VoteCheckThrows(body) {
      assert h == Next(JsError(None, CannotConvertToPrimitive));
    } else {
      VoteRejectedIff(body);
      if Truthy(Field(body, "inc_votes")) {
        assert h == VoteUpdate(lookup, update);
      }
    }
  }

  /**
   * The update is consulted only after the lookup resolves: when the lookup
   * rejects, the answer does not depend on the update and is a 500 with the
   * lookup's message ("Article not found" for a missing article), never a
   * 404. After a resolved lookup, the update's result decides: 200 with the
   * updated article, or 500 with the update's message.
   */
  lemma UpdateOnlyAfterLookup(id: string, body: JsValue, lookup: QueryResult<Article>,
                              update: Settled<seq<Article>>, update2: Settled<seq<Article>>)
    requires !IdRejected(id) && !Nullish(body) && Truthy(Field(body, "inc_votes"))
    requires ConvertsToString(Field(body, "inc_votes"))
    ensures SelectArticleById(lookup).Rejected? ==>
      && PatchArticleById(id, body, lookup, update) == PatchArticleById(id, body, lookup, update2)
      && Respond(PatchArticleById(id, body, lookup, update))
         == Response(500, MessageBody(SelectArticleById(lookup).error.message))
    ensures lookup == Rows([]) ==>
      Respond(PatchArticleById(id, body, lookup, update)) == Response(500, MessageBody(ArticleNotFound))
    ensures lookup.Rows? && lookup.rows != [] && update.Resolved? ==>
      Respond(PatchArticleById(id, body, lookup, update)) == Response(200, ArticleBody(update.value))
    ensures lookup.Rows? && lookup.rows != [] && update.Rejected? ==>
      Respond(PatchArticleById(id, body, lookup, update)) == Response(500, MessageBody(update.error.message))
    ensures Respond(PatchArticleById(id, body, lookup, update)).status != 404
  {
    VoteRejectedIff(body);
    assert PatchArticleById(id, body, lookup, update) == VoteUpdate(lookup, update);
    assert PatchArticleById(id, body, lookup, update2) == VoteUpdate(lookup, update2);
  }
}
