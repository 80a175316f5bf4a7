# NC-News request handling, modelled in Dafny

NC-News is an Express application backed by a PostgreSQL store of topics,
articles, comments and users. This project models how it handles requests
for articles and comments:

- the controllers `getArticles`, `getArticleById`, `patchArticleById`,
  `getCommentsById`, `postComment` and `deleteCommentById`. The model covers
  their input checks, the order in which those checks run, and how each
  handler classifies what its store calls settle with;
- the model functions `selectArticles`, `selectArticleById` and
  `selectCommentsById`, including the rows their SQL asks the store for;
- the routes app.js registers, and its error-handling middleware.

Each handler is a decision function. Its inputs are the path id, the
query-string values, the request body, and the answer each store call
settles with. It returns either a response (`Send`) or an error passed to
`next` (`Next`), and `App.Respond` turns that into the status and body the
client gets. `getArticles` builds its `queries` object one field at a time
and overwrites `topic`/`author` later, so it is a method,
`ArticlesController.GetArticles`. That method is proved equal to the
function `ArticlesOutcome`.

Modules:

- `JsRuntime`: the JavaScript semantics the handlers depend on:
  - truthiness and `typeof x === "object"`;
  - property reads, which throw on undefined or null;
  - `String(v)`;
  - `parseInt` without a radix;
  - `===` against NaN;
  - `toUpperCase`, as far as the order check can observe it.
- `Tables`: the article and comment tables, the answers a query can get, and
  settled promises (a promise keeps its first settlement). Also the
  filtering, counting and `ORDER BY created_at DESC` the SQL asks for, and
  how PostgreSQL reads the id's text as the integer `$1` stands for. An
  answer to an ordered query is any sequence holding the same rows, ordered
  by the key, so rows with equal timestamps may come in any order. An
  insertion sort shows such an answer always exists.
- `ArticlesModel` and `CommentsModel`: models/articles.js and
  models/comments.js.
- `ArticlesController` and `CommentsController`: the two controller files.
- `App`: app.js.

The model follows what the code does. In several places the code's own
branches and messages announce more than it delivers. The lemmas pin down
what it does instead:

- The id check's message is "Bad Request: ID must be a number"
  (controllers/articles.js:63-64). An id passes it when `parseInt` finds a
  number at its start, so `"12abc"`, `" -7"` and `"0x1f"` all pass.
  PostgreSQL then refuses `"12abc"` and `"0x1f"` as integers, and the
  request gets 500 with that same message.
- The page check at controllers/articles.js:34-38 compares with
  `=== NaN`, which is never true, so "Page must be a number" is never
  sent. The vote check at controllers/articles.js:96-100 likewise only
  tests whether `inc_votes` is truthy. A page or `inc_votes` object with
  its own `toString` key makes `parseInt` throw, which gives 500.
- The handlers set 404 for a missing article or for no comments
  (controllers/articles.js:71-75, controllers/comments.js:20-24), and so do
  the models (models/articles.js:27-31, models/comments.js:11-15). But the
  models reject on no rows, so the handlers' 404 branches are never
  reached. The controllers' `.catch` (controllers/articles.js:79-82) then
  sets the status of the model's 404 to 500. So a missing article, or an
  article with no comments, gets 500 with the model's message, never 404.
  Only `deleteCommentById` can answer 404.
- `getArticles` checks and normalises `sort_by`, `order`, `topic` and
  `author` into `queries` (controllers/articles.js:10-14 and 45-46). But
  `selectArticles` takes no argument (models/articles.js:3), so the listing
  is always all articles, newest first.
- The middleware's generic "Internal Server Error" (app.js:23) is used only
  for errors without a status. The `.catch` blocks give every rejection
  status 500 (controllers/articles.js:53-56), so a failing listing query is
  answered with pg's own message text.
- An order is accepted when it spells "asc" or "desc" in any mix of cases.
  The long s (`ſ`, U+017F) also counts as an s, since it upper-cases to
  `S`.
- The controllers export `patchArticleById`, `postComment` and
  `deleteCommentById` (controllers/articles.js:85, controllers/comments.js:33
  and 83), but app.js:11-17 registers only four GET routes. Those three
  handlers are modelled as written, but no request reaches them. A HEAD
  request runs the same handler as the GET request for its path.

## Model

| member | source | states |
|---|---|---|
| JsRuntime.NothingStrictlyEqualsNaN | controllers/articles.js:34 | `x === NaN` is false for every number, NaN included |
| JsRuntime.ParseIntNaNIff | controllers/articles.js:63 | parseInt gives a number exactly when, after leading white space, the text has an optional sign and then a decimal digit, or a "0x" prefix and a hex digit; the rest of the text is never looked at |
| JsRuntime.ParseIntOfNumeralPrefix | controllers/articles.js:63 | parseInt of a decimal numeral followed by text that does not continue it gives the numeral's value ("12abc" gives 12) |
| JsRuntime.ParseIntRoundTrip | controllers/articles.js:63 | parseInt(String(n)) == n for every integer n |
| Tables.PgIntegerOfDecimal | models/articles.js:23-25 | PostgreSQL reads the numeral `String(k)` back as k for every k in the range of its integer type |
| Tables.PgIntegerPassesIdCheck | models/articles.js:23-25 | every text PostgreSQL reads as an integer also passes the handlers' `parseInt` id check |
| Tables.TrailingTextRefused | models/comments.js:5-9 | a numeral followed by text that starts with neither a digit nor white space ("12abc") is not an integer to PostgreSQL |
| Tables.ArticlesWithId | models/articles.js:19-25 | `WHERE article_id = $1`: the result holds exactly the articles with that id |
| Tables.CommentsOn | models/comments.js:4-5 | `WHERE article_id = $1`: each comment on the article occurs as often as in the table, and no other comment occurs |
| Tables.CommentsOnCounted | models/articles.js:6-8 | an article's comments number exactly COUNT(comments.article_id) over the LEFT JOIN for it |
| Tables.SortDescending | models/comments.js:6 | a permutation of the rows, ordered by descending key: ORDER BY ... DESC always has an answer |
| Tables.OrderedAnswerMembers | models/comments.js:6 | an ordered answer has exactly the rows of the query, as many as it |
| ArticlesModel.ListingOf | models/articles.js:4-10 | the listing query always has an answer: one row per article ordered by created_at descending |
| ArticlesModel.ListingRowsAreArticles | models/articles.js:4-15 | every answer to the listing query has one row per article, contains every article's row and only those, carries the live comment count (0 when none), has no body column and is newest first |
| ArticlesModel.ListingOneRowPerArticle | models/articles.js:7-9 | with article_id a key, no article appears twice in the listing |
| ArticlesModel.SelectArticles | models/articles.js:3-16 | resolves exactly when the query returns rows, with those rows; a failure rejects with pg's error, its message kept and no status |
| ArticlesModel.SelectArticleById | models/articles.js:18-40 | resolves exactly when rows come back, with those rows; no rows rejects with 404 "Article not found" (the later resolve has no effect); a store failure rejects with 400 "Bad Request: ID must be a number" whatever pg said |
| ArticlesModel.SelectArticleByIdOnTable | models/articles.js:19-33 | on the table, the lookup resolves exactly when an article has the id, with exactly those articles, and otherwise rejects with 404 "Article not found" |
| CommentsModel.CommentsAnswerOf | models/comments.js:4-6 | the comments query always has an answer: the article's comments, newest first |
| CommentsModel.SelectCommentsById | models/comments.js:3-24 | resolves exactly when rows come back, with those rows; no rows rejects with 404 "No comments found with matching article ID" (the later resolve has no effect); a store failure rejects with 400 "Bad Request: ID must be a number" |
| CommentsModel.SelectCommentsByIdOnTable | models/comments.js:4-16 | on the table, the lookup resolves exactly when the article has comments, with all of them, as many as its comment count, newest first; otherwise it rejects with 404 |
| App.CatchAs500 | controllers/articles.js:79-82 | the `.catch` keeps the rejection's message and sets its status to 500, so the middleware answers 500 with that message |
| App.Respond | app.js:19-25 | the response is what the handler sent, or the middleware's message answer to the error passed to `next`; it is 404 exactly when the handler sent 404 or passed on an error with status 404 |
| App.HandleError | app.js:19-25 | an error with a status gets that status and its own message; any other gets 500 "Internal Server Error"; the body is always just a message |
| App.StatuslessErrorsLookAlike | app.js:22-23 | errors without a status get the same response whatever their messages |
| App.Dispatch | app.js:11-17 | a request is dispatched exactly when a registered route serves its method (a GET route also serves HEAD) and its pattern matches the path, and then to such a route's handler with the parameters the pattern binds |
| App.OnlyFourGetRoutes | app.js:11-17 | only GET and HEAD requests reach a handler, and only getTopics, getArticles, getArticleById and getCommentsById: no PATCH, POST or DELETE request does, so those handlers are unreachable |
| App.HeadRunsGetHandler | app.js:11-17 | a HEAD request is dispatched to the handler the GET request for the same path gets, with the same parameters |
| App.ArticleByIdRoute | app.js:15 | GET /api/articles/:article_id runs getArticleById with the path segment as article_id |
| App.CommentsRoute | app.js:17 | GET /api/articles/:article_id/comments runs getCommentsById with the path segment as article_id |
| ArticlesController.GetArticles | controllers/articles.js:7-57 | builds `queries` with the defaults "created_at", "DESC" and "1" for falsy values; selectArticles receives it exactly when every check passes, with a non-string topic or author replaced by null and string ones kept; the outcome is the one ArticlesOutcome gives |
| ArticlesController.ArticlesOutcome | controllers/articles.js:7-57 | a 200 answer carries exactly the store's rows; a 400 is only ever "Invalid sort category" or "Invalid sort order"; never 404 |
| ArticlesController.DefaultsAccepted | controllers/articles.js:10-12 | a request without sort_by, order and p gets "created_at", "DESC" and "1", and passes every check |
| ArticlesController.SortCategoryCheckedFirst | controllers/articles.js:17-32 | the answer is 400 "Invalid sort category" exactly when a sort_by is given that is not one of the eight columns, whatever order and p are |
| ArticlesController.SortColumnDefaulted | controllers/articles.js:10 | the sort check passes exactly when sort_by is falsy or names one of the eight columns |
| ArticlesController.ListedSortNotRejected | controllers/articles.js:34-56 | past the sort check, no later branch answers "Invalid sort category" |
| ArticlesController.PageCheckNeverFires | controllers/articles.js:34 | `parseInt(page) === NaN` is false for every page value |
| ArticlesController.PageNeverRejected | controllers/articles.js:34-38 | no request is ever answered 400 "Page must be a number" |
| ArticlesController.OrderListedIff | controllers/articles.js:40 | an order upper-cases to "ASC" or "DESC" exactly when it spells asc or desc in any mix of cases, the long s counting as an s |
| ArticlesController.OrderDefaulted | controllers/articles.js:11 | the order check passes exactly when order is falsy or a string that upper-cases to ASC or DESC |
| ArticlesController.OrderCheck | controllers/articles.js:34-44 | with a valid sort column, 400 "Invalid sort order (must be 'asc' or 'desc')" exactly when the page converts to a string and a given string order does not upper-case to ASC or DESC; a truthy order that is not a string throws and gets 500 "Internal Server Error" |
| ArticlesController.PageConversionThrows | controllers/articles.js:34-38 | with a valid sort column, a page whose `String` conversion throws (an object with its own `toString` key) gets 500 "Internal Server Error" and never reaches selectArticles |
| ArticlesController.QueryValuesIgnored | controllers/articles.js:45-56 | two requests that pass the checks get the same answer whatever their sort_by, order, p, topic and author: 200 with the store's rows |
| ArticlesController.ListingServed | controllers/articles.js:48-51 | an accepted request gets 200 with every article once, the live comment counts, newest first |
| ArticlesController.ListingFailureLeaksMessage | controllers/articles.js:53-56 | a failing listing query is answered 500 with pg's own message |
| ArticlesController.GetArticleById | controllers/articles.js:59-83 | a 200 answer carries the lookup's rows and needs rows to come back; any error passed on has status 400 when parseInt refuses the id and 500 otherwise, never 404 |
| ArticlesController.ArticleIdCheck | controllers/articles.js:63-67 | 400 "Bad Request: ID must be a number" exactly when parseInt(id) is NaN, and then the store's answer plays no part |
| ArticlesController.NumeralPrefixAccepted | controllers/articles.js:63 | an id that starts with a decimal numeral passes the check whatever follows it ("12abc" passes) |
| ArticlesController.ArticleByIdOutcomes | controllers/articles.js:69-82 | never 404: no rows gives 500 "Article not found", a store failure gives 500 "Bad Request: ID must be a number", rows give 200 with them |
| ArticlesController.GetArticleByIdOnTable | controllers/articles.js:59-83 | with the id's text sent to the table: 400 when parseInt refuses it; 500 "Bad Request: ID must be a number" when parseInt accepts it but PostgreSQL does not; otherwise 200 exactly when an article has the integer it stands for, with exactly those articles, and 500 "Article not found" when none has |
| ArticlesController.ArticleByNumeralId | controllers/articles.js:59-83 | GET of the numeral of k gets 200 with exactly the articles with id k when there are some, and 500 "Article not found" otherwise |
| ArticlesController.NumeralWithTextIsServerError | controllers/articles.js:63-82 | an id such as "12abc" passes the check and gets 500 "Bad Request: ID must be a number" from the failing query, whatever the table holds |
| ArticlesController.PatchArticleById | controllers/articles.js:85-134 | a sent answer is 200; a 400 is only "Bad Request: ID must be a number" or the missing-vote message; never 404 |
| ArticlesController.PatchIdCheck | controllers/articles.js:90-94 | 400 "Bad Request: ID must be a number" exactly when parseInt(id) is NaN, and then neither the body nor the store plays a part |
| ArticlesController.VoteRejectedIff | controllers/articles.js:96-100 | the vote check fails exactly when inc_votes is falsy; a truthy non-numeric inc_votes passes |
| ArticlesController.PatchVoteCheck | controllers/articles.js:96-106 | with a valid id, 400 "Missing vote increment amount..." exactly when inc_votes is falsy; an undefined or null body, or an inc_votes whose `String` conversion throws, gets 500 "Internal Server Error" |
| ArticlesController.VoteUpdate | controllers/articles.js:109-133 | once the checks pass, the answer is 200 or an error with status 500: the 404 "Cannot edit votes of article that does not exist" branch is never reached |
| ArticlesController.UpdateOnlyAfterLookup | controllers/articles.js:109-133 | when the lookup rejects, the update plays no part and the answer is 500 with the lookup's message ("Article not found" for a missing article); after the lookup, the update gives 200 with its rows or 500 with its message; never 404 |
| CommentsController.GetCommentsById | controllers/comments.js:8-31 | a 200 answer carries the lookup's rows and needs rows to come back; any error passed on has status 400 when parseInt refuses the id and 500 otherwise, never 404 |
| CommentsController.CommentsIdCheck | controllers/comments.js:12-16 | 400 "Bad Request: ID must be a number" exactly when parseInt(id) is NaN, and then the store plays no part |
| CommentsController.CommentsOutcomes | controllers/comments.js:18-30 | never 404: no comments gives 500 "No comments found with matching article ID", a store failure 500 "Bad Request: ID must be a number", comments 200 with them |
| CommentsController.GetCommentsByIdOnTable | controllers/comments.js:8-31 | with the id's text sent to the table: 400 when parseInt refuses it; 500 "Bad Request: ID must be a number" when parseInt accepts it but PostgreSQL does not; otherwise 200 exactly when the article with the integer it stands for has comments, with all of them, as many as its comment count, newest first, and 500 "No comments found with matching article ID" when it has none |
| CommentsController.PostComment | controllers/comments.js:33-81 | a sent answer is 201; a 400 is only "Bad Request: ID must be a number" or the missing-username/body message; never 404 |
| CommentsController.PostIdCheck | controllers/comments.js:38-42 | 400 "Bad Request: ID must be a number" exactly when parseInt(id) is NaN, and then neither the body nor the store plays a part |
| CommentsController.CommentRejectedIff | controllers/comments.js:44-48 | the body check fails exactly when body or username is falsy; the typeof test never decides |
| CommentsController.PostBodyCheck | controllers/comments.js:44-54 | with a valid id, 400 "Missing username/body..." exactly when body or username is falsy; an undefined or null request body throws and gets 500 "Internal Server Error" |
| CommentsController.ExtraFieldsIgnored | controllers/comments.js:44-48 | adding or changing a field other than body and username does not change the answer |
| CommentsController.CommentInsert | controllers/comments.js:57-80 | once the checks pass, the answer is 201 or an error with status 500: the 404 "Cannot post comment to article that does not exist" branch is never reached |
| CommentsController.InsertOnlyAfterLookup | controllers/comments.js:57-80 | when the lookup rejects, the insert plays no part and the answer is 500 with the lookup's message; 201 with the new comment exactly when the lookup finds the article and the insert resolves; an insert failure is 500 with its message; never 404 |
| CommentsController.DeleteCommentById | controllers/comments.js:83-106 | a sent answer is 204 with no content and needs rows removed; the error passed on has status 404 exactly when the id passes the check and nothing was removed |
| CommentsController.DeleteIdCheck | controllers/comments.js:87-91 | 400 "Bad Request: ID must be a number" exactly when parseInt(id) is NaN, and then the store plays no part |
| CommentsController.DeleteOutcomes | controllers/comments.js:93-105 | no rows removed gives 404 "Cannot delete comment that does not exist", rows removed 204 with no content, a rejected removal 500 with its message |

## Left out

- SQL execution, pg and the connection pool are not modelled. A store call
  is represented by the answer it settles with: rows, or a failure with
  pg's message. The tables themselves are sequences in memory.
- Tables.PgInteger follows PostgreSQL's integer input before version 16:
  white space, a sign and decimal digits. The hexadecimal, octal and binary
  prefixes and the digit separators version 16 accepts are not modelled.
  The article_id columns are taken to be of type `integer`, because the
  schema is not part of this model.
- `updateArticleById`, `insertComment` and `removeCommentById` are not part
  of this model, because their code is not available. Each is represented
  only by the promise it settles with. So vote arithmetic, the inserted
  comment's fields and timestamp, and what deletion removes stay abstract.
- The topics, users and api controllers and their models are not modelled.
  They pass `SELECT *` results through with 500 on failure, and the api
  endpoint reads a file.
- JavaScript numbers are modelled as unbounded integers. Fractions,
  Infinity and the loss of precision above 2^53 are not modelled.
- JsRuntime.UpperChar maps only a-z and the long s. It agrees with
  `toUpperCase` on whether a string becomes "ASC" or "DESC", which is all
  the handler asks. It is not a general upper-casing.
- JsRuntime.Field reads only the own fields of plain objects. The handlers
  read `inc_votes`, `body` and `username`, which no array, string, number or
  prototype provides.
- The texts of the TypeErrors the engine throws are V8's wording. They never
  reach the client, because the middleware answers every error without a
  status with "Internal Server Error".
- Express routing is modelled as exact segment matching. Case-insensitive
  paths, trailing slashes, URL decoding, the 404 for unmatched paths and
  Express's automatic answer to OPTIONS requests are not modelled. A HEAD
  response is modelled with the body of the GET response, which Express
  does not send.
- JsRuntime.ConvertsToString models how `String(v)` throws on an object
  with its own `toString` key. Values from the query string and JSON never
  hold functions, so such a key is never callable.
- The `next()` that `getArticles` and `getArticleById` call after sending
  is not modelled. Express ignores it once the response has been sent.
- Asynchronous scheduling is not modelled. Each promise chain is treated as
  the sequence of its settlements. The race between the existence check and
  the update or insert is a concurrency property outside the model.
- Timestamps are integers on one time line. PostgreSQL's timestamp type is
  not modelled.
