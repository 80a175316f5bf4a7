/**
 * app.js: the routes the Express app registers, the error-handling
 * middleware, and the responses the handlers and the middleware write.
 */
module App {
  import opened JsRuntime
  import opened Tables

  /** The JSON bodies a response can carry. */
  datatype Body =
    | ArticlesBody(articles: seq<ListingRow>)
    | ArticleBody(article: seq<Article>)
    | CommentsBody(comments: seq<Comment>)
    | CommentBody(comment: Comment)
    | NoContent
    | MessageBody(message: string)

  datatype Response = Response(status: int, body: Body)

  /** What a handler does with its request: send a response, or pass an error to `next(err)`. */
  datatype Handled = Send(status: int, body: Body) | Next(error: JsError)

  /**
   * The controllers' `.catch((err) => { err.status = 500; return next(err); })`:
   * whatever the rejection said its status was, it is passed on as 500 with
   * its message kept.
   */
  function CatchAs500(err: JsError): (e: JsError)
    ensures e.status == Some(500) && e.message == err.message
    ensures HandleError(e) == Response(500, MessageBody(err.message))
  {
    err.(status := Some(500))
  }

  const InternalServerError: string := "Internal Server Error"

  /** `if (err.status)`: a status property that is present and not 0. */
  predicate HasStatus(err: JsError)
  {
    err.status.Some? && err.status.value != 0
  }

  /**
   * The error-handling middleware: an error with a status is answered with
   * that status and its own message; any other error with 500 and
   * "Internal Server Error", whatever its message. The body always holds a
   * message and nothing else.
   */
  function HandleError(err: JsError): (r: Response)
    ensures r.body.MessageBody?
    ensures HasStatus(err) ==> r.status == err.status.value && r.body.message == err.message
    ensures !HasStatus(err) ==> r.status == 500 && r.body.message == InternalServerError
  {
    if HasStatus(err) then Response(err.status.value, MessageBody(err.message))
    else Response(500, MessageBody(InternalServerError))
  }

  /**
   * The response a request gets once the handler has run: what the handler
   * sent, or what the middleware makes of the error passed to `next`.
   */
  function Respond(h: Handled): (r: Response)
    ensures h.Send? ==> r == Response(h.status, h.body)
    ensures h.Next? ==> r.body.MessageBody?
    ensures r.status == 404 <==> (h.Send? && h.status == 404) || (h.Next? && h.error.status == Some(404))
  {
    match h
    case Send(status, body) => Response(status, body)
    case Next(err) => HandleError(err)
  }

  /** Errors without a status all get the same response, whatever their messages. */
  lemma StatuslessErrorsLookAlike(e1: JsError, e2: JsError)
    requires !HasStatus(e1) && !HasStatus(e2)
    ensures HandleError(e1) == HandleError(e2)
  {
  }

  // ---------------------------------------------------------------------------
  // Route registration
  // ---------------------------------------------------------------------------

  datatype Verb = GET | HEAD | POST | PATCH | DELETE

  /** A route registered for one method also serves HEAD requests when it is a GET route. */
  predicate Serves(registered: Verb, requested: Verb)
  {
    registered == requested || (registered == GET && requested == HEAD)
  }

  /** A path segment of a route: literal text, or a `:name` parameter. */
  datatype Segment = Lit(text: string) | Param(name: string)

  /** A registered route: the method, the path pattern and the name of the controller export it runs. */
  datatype Route = Route(verb: Verb, pattern: seq<Segment>, handler: string)

  /** The routes app.js registers, in registration order. */
  const Routes: seq<Route> := [
    Route(GET, [Lit("api"), Lit("topics")], "getTopics"),
    Route(GET, [Lit("api"), Lit("articles")], "getArticles"),
    Route(GET, [Lit("api"), Lit("articles"), Param("article_id")], "getArticleById"),
    Route(GET, [Lit("api"), Lit("articles"), Param("article_id"), Lit("comments")], "getCommentsById")
  ]

  /** A route that matched a request, with the values of its parameters. */
  datatype Dispatched = Dispatched(handler: string, params: map<string, string>)

  /**
   * Matches the segments of a request path against a pattern: literals must
   * be equal, a parameter takes one non-empty segment.
   */
  function MatchPattern(pattern: seq<Segment>, path: seq<string>): Option<map<string, string>>
  {
    if pattern == [] then (if path == [] then Some(map[]) else None)
    else if path == [] then None
    else
      match MatchPattern(pattern[1..], path[1..])
      case None => None
      case Some(params) =>
        match pattern[0]
        case Lit(text) => if path[0] == text then Some(params) else None
        case Param(name) => if path[0] != "" then Some(params[name := path[0]]) else None
  }

  /** The route serves the request's method and its pattern matches the request's path. */
  predicate Matches(r: Route, verb: Verb, path: seq<string>)
  {
    Serves(r.verb, verb) && MatchPattern(r.pattern, path).Some?
  }

  /**
   * The first route, in registration order, that serves the request's method
   * and whose pattern matches its path: there is one exactly when some route
   * matches, and it runs that route's handler with the parameters the
   * pattern binds.
   */
  function FirstMatch(routes: seq<Route>, verb: Verb, path: seq<string>): (d: Option<Dispatched>)
    ensures d.Some? <==> exists r :: r in routes && Matches(r, verb, path)
    ensures d.Some? ==> exists r :: r in routes && Matches(r, verb, path) && r.handler == d.value.handler
                          && MatchPattern(r.pattern, path) == Some(d.value.params)
  {
    if routes == [] then None
    else if Matches(routes[0], verb, path) then
      Some(Dispatched(routes[0].handler, MatchPattern(routes[0].pattern, path).value))
    else
      FirstMatch(routes[1..], verb, path)
  }

  /**
   * The handler Express runs for a request to this app, if any: a request is
   * dispatched exactly when a registered route matches it, and then to the
   * handler of such a route with the parameters its pattern binds.
   */
  function Dispatch(verb: Verb, path: seq<string>): (d: Option<Dispatched>)
    ensures d.Some? <==> exists r :: r in Routes && Matches(r, verb, path)
    ensures d.Some? ==> exists r :: r in Routes && Matches(r, verb, path) && r.handler == d.value.handler
                          && MatchPattern(r.pattern, path) == Some(d.value.params)
  {
    FirstMatch(Routes, verb, path)
  }

  /**
   * Only the four GET routes are registered: only GET and HEAD requests
   * reach a handler, no PATCH, POST or DELETE request does, and the vote,
   * comment-posting and deletion handlers are never run by this app.
   */
  lemma OnlyFourGetRoutes(verb: Verb, path: seq<string>)
    ensures Dispatch(verb, path).Some? ==> verb == GET || verb == HEAD
    ensures Dispatch(verb, path).Some? ==>
      Dispatch(verb, path).value.handler in {"getTopics", "getArticles", "getArticleById", "getCommentsById"}
  {
    var d := Dispatch(verb, path);
    if d.Some? {
      var r :| r in Routes && Matches(r, verb, path) && r.handler == d.value.handler;
    }
  }

  /** Over routes none of which is registered for HEAD, a HEAD request finds what a GET request finds. */
  lemma {:induction false} HeadMatchesLikeGet(routes: seq<Route>, path: seq<string>)
    requires forall r :: r in routes ==> r.verb != HEAD
    ensures FirstMatch(routes, HEAD, path) == FirstMatch(routes, GET, path)
  {
    if routes != [] {
      assert routes[0] in routes;
      HeadMatchesLikeGet(routes[1..], path);
    }
  }

  /** A HEAD request runs the handler the same GET request runs, with the same parameters. */
  lemma HeadRunsGetHandler(path: seq<string>)
    ensures Dispatch(HEAD, path) == Dispatch(GET, path)
  {
    HeadMatchesLikeGet(Routes, path);
  }

  /** A pattern matches only paths with as many segments as it has. */
  lemma {:induction false} MatchLengths(pattern: seq<Segment>, path: seq<string>)
    ensures MatchPattern(pattern, path).Some? ==> |pattern| == |path|
  {
    if pattern != [] && path != [] {
      MatchLengths(pattern[1..], path[1..]);
    }
  }

  /** GET /api/articles/:article_id runs getArticleById with the segment as the id. */
  lemma ArticleByIdRoute(id: string)
    requires id != ""
    ensures Dispatch(GET, ["api", "articles", id]) == Some(Dispatched("getArticleById", map["article_id" := id]))
  {
    var path := ["api", "articles", id];
    MatchLengths(Routes[0].pattern, path);
    MatchLengths(Routes[1].pattern, path);
    assert path[1..] == ["articles", id] && path[2..] == [id] && path[3..] == [];
    var pat := Routes[2].pattern;
    var params := map["article_id" := id];
    assert pat[1..] == [Lit("articles"), Param("article_id")] && pat[1..][1..] == [Param("article_id")];
    assert MatchPattern(pat[1..][1..], path[2..]) == Some(params);
    assert MatchPattern(pat[1..], path[1..]) == Some(params);
    assert MatchPattern(pat, path) == Some(params);
    assert FirstMatch(Routes[2..], GET, path) == Some(Dispatched("getArticleById", params));
    assert FirstMatch(Routes[1..], GET, path) == FirstMatch(Routes[1..][1..], GET, path);
  }

  /** GET /api/articles/:article_id/comments runs getCommentsById with the segment as the id. */
  lemma CommentsRoute(id: string)
    requires id != ""
    ensures Dispatch(GET, ["api", "articles", id, "comments"])
         == Some(Dispatched("getCommentsById", map["article_id" := id]))
  {
    var path := ["api", "articles", id, "comments"];
    MatchLengths(Routes[0].pattern, path);
    MatchLengths(Routes[1].pattern, path);
    MatchLengths(Routes[2].pattern, path);
    assert path[1..] == ["articles", id, "comments"] && path[2..] == [id, "comments"];
    assert path[3..] == ["comments"] && path[4..] == [];
    var pat := Routes[3].pattern;
    var params := map["article_id" := id];
    assert pat[1..] == [Lit("articles"), Param("article_id"), Lit("comments")];
    assert pat[1..][1..] == [Param("article_id"), Lit("comments")] && pat[1..][1..][1..] == [Lit("comments")];
    assert MatchPattern(pat[1..][1..][1..], path[3..]) == Some(map[]);
    assert MatchPattern(pat[1..][1..], path[2..]) == Some(params);
    assert MatchPattern(pat[1..], path[1..]) == Some(params);
    assert MatchPattern(pat, path) == Some(params);
    assert FirstMatch(Routes[3..], GET, path) == Some(Dispatched("getCommentsById", params));
    assert FirstMatch(Routes[2..], GET, path) == FirstMatch(Routes[2..][1..], GET, path);
    assert FirstMatch(Routes[1..], GET, path) == FirstMatch(Routes[1..][1..], GET, path);
  }
}
