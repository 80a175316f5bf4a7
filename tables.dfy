/**
 * The relational store as the models see it: the article and comment tables,
 * the answer a `db.query` call settles with, settled promises, and the
 * filtering, counting and ordering the models' SQL asks of the store.
 */
module Tables {
  import opened JsRuntime

  /** Timestamps are instants on a single integer time line (milliseconds). */
  type Timestamp = int

  datatype Article = Article(
    articleId: int,
    author: string,
    title: string,
    topic: string,
    body: string,
    createdAt: Timestamp,
    votes: int,
    articleImgUrl: string)

  datatype Comment = Comment(
    commentId: int,
    articleId: int,
    author: string,
    body: string,
    votes: int,
    createdAt: Timestamp)

  /** A row of the article listing: the article's columns except `body`, plus the live comment count. */
  datatype ListingRow = ListingRow(
    author: string,
    title: string,
    articleId: int,
    topic: string,
    createdAt: Timestamp,
    votes: int,
    articleImgUrl: string,
    commentCount: nat)

  datatype Db = Db(articles: seq<Article>, comments: seq<Comment>)

  /** What `db.query` settles with: the result rows (`rowCount` is their number) or pg's error message. */
  datatype QueryResult<T> = Rows(rows: seq<T>) | QueryFailed(message: string)

  /** A settled promise: resolved with a value or rejected with an error. */
  datatype Settled<T> = Resolved(value: T) | Rejected(error: JsError)

  /**
   * A promise settles with the first resolve or reject call its executor
   * makes; the calls after it have no effect.
   */
  function FirstSettlement<T>(calls: seq<Settled<T>>): Settled<T>
    requires calls != []
  {
    calls[0]
  }

  /** The message the models put on every store failure, and the controllers on malformed ids. */
  const IdMustBeNumber: string := "Bad Request: ID must be a number"

  /** `isNaN(parseInt(id))`: the id check of every handler that takes an id. */
  predicate IdRejected(id: string)
  {
    ParseInt(id).NaN?
  }

  // ---------------------------------------------------------------------------
  // The text of $1 read as a PostgreSQL integer
  // ---------------------------------------------------------------------------

  /** The range of PostgreSQL's `integer` type, the type of the article_id columns. */
  const Int4Min: int := -0x8000_0000
  const Int4Max: int := 0x7FFF_FFFF

  /** `isspace` in the C locale: the white space PostgreSQL allows around an integer. */
  predicate IsPgSpace(c: char)
  {
    c == ' ' || c == '\t' || c == '\n' || c == '\r' || c == '\U{000B}' || c == '\U{000C}'
  }

  function SkipPgSpace(s: string): string
  {
    if s != [] && IsPgSpace(s[0]) then SkipPgSpace(s[1..]) else s
  }

  function DropTrailingPgSpace(s: string): string
  {
    if s != [] && IsPgSpace(s[|s| - 1]) then DropTrailingPgSpace(s[..|s| - 1]) else s
  }

  /**
   * The value of a text that is an integer numeral in PostgreSQL's input
   * syntax: white space, one optional sign, decimal digits and nothing else
   * but white space. None when the syntax is wrong.
   */
  function PgNumeral(s: string): Option<int>
  {
    var t := DropTrailingPgSpace(SkipPgSpace(s));
    var u := StripSign(t);
    if u == [] || DigitRun(u, 10) != |u| then None
    else if t[0] == '-' then Some(-(DigitsValue(u, 10) as int))
    else Some(DigitsValue(u, 10))
  }

  /**
   * The integer a query parameter sent as text stands for when it is compared
   * with an integer column; None when PostgreSQL raises an error instead,
   * because the syntax is wrong or the value is out of range.
   */
  function PgInteger(s: string): Option<int>
  {
    match PgNumeral(s)
    case None => None
    case Some(v) => if Int4Min <= v <= Int4Max then Some(v) else None
  }

  /** The message of the error PostgreSQL raises for a text PgInteger refuses. */
  function PgIntegerError(s: string): string
  {
    if PgNumeral(s).Some? then "value \"" + s + "\" is out of range for type integer"
    else "invalid input syntax for type integer: \"" + s + "\""
  }

  /** SkipPgSpace removes a prefix of white space. */
  lemma {:induction false} SkipPgSpaceIsSuffix(s: string)
    ensures var t := SkipPgSpace(s);
      && |t| <= |s| && t == s[|s| - |t|..]
      && (forall i :: 0 <= i < |s| - |t| ==> IsPgSpace(s[i]))
  {
    if s != [] && IsPgSpace(s[0]) {
      var r := s[1..];
      SkipPgSpaceIsSuffix(r);
      var t := SkipPgSpace(r);
      assert r[|r| - |t|..] == s[|s| - |t|..];
      forall i | 0 <= i < |s| - |t|
        ensures IsPgSpace(s[i])
      {
        if i > 0 {
          assert s[i] == r[i - 1];
        }
      }
    }
  }

  /** DropTrailingPgSpace removes a suffix of white space, up to the last other character. */
  lemma {:induction false} DropTrailingPgSpaceIsPrefix(s: string)
    ensures var t := DropTrailingPgSpace(s);
      && |t| <= |s| && t == s[..|t|]
      && (forall i :: |t| <= i < |s| ==> IsPgSpace(s[i]))
      && (t == [] || !IsPgSpace(t[|t| - 1]))
  {
    if s != [] && IsPgSpace(s[|s| - 1]) {
      var r := s[..|s| - 1];
      DropTrailingPgSpaceIsPrefix(r);
      var t := DropTrailingPgSpace(r);
      assert r[..|t|] == s[..|t|];
      forall i | |t| <= i < |s|
        ensures IsPgSpace(s[i])
      {
        if i < |s| - 1 {
          assert s[i] == r[i];
        }
      }
    }
  }

  /** A run of digits as long as the string means every character is a digit. */
  lemma {:induction false} DigitRunWhole(s: string, radix: nat)
    requires DigitRun(s, radix) == |s|
    ensures forall i :: 0 <= i < |s| ==> IsDigit(s[i], radix)
  {
    if s != [] {
      DigitRunWhole(s[1..], radix);
      forall i | 0 <= i < |s|
        ensures IsDigit(s[i], radix)
      {
        if i > 0 {
          assert s[i] == s[1..][i - 1];
        }
      }
    }
  }

  /** Text without white space at either end is left as it is. */
  lemma NoPgSpaceAround(t: string)
    requires t != [] && !IsPgSpace(t[0]) && !IsPgSpace(t[|t| - 1])
    ensures DropTrailingPgSpace(SkipPgSpace(t)) == t
  {
    assert SkipPgSpace(t) == t;
  }

  /** A sign and digits without white space around them denote the signed value of the digits. */
  lemma PgNumeralOfDigits(t: string, u: string)
    requires t != [] && !IsPgSpace(t[0]) && !IsPgSpace(t[|t| - 1])
    requires u == StripSign(t) && u != [] && DigitRun(u, 10) == |u|
    ensures PgNumeral(t) == Some(if t[0] == '-' then -(DigitsValue(u, 10) as int) else DigitsValue(u, 10))
  {
    NoPgSpaceAround(t);
  }

  /** The digits of a natural number's numeral, and the value they denote. */
  lemma NaturalNumeral(m: nat)
    ensures var p := NaturalString(m);
      p != [] && !IsPgSpace(p[0]) && !IsPgSpace(p[|p| - 1]) && p[0] != '-' && p[0] != '+'
      && DigitRun(p, 10) == |p| && DigitsValue(p, 10) == m
  {
    var p := NaturalString(m);
    NaturalStringDigits(m);
    NaturalStringValue(m);
    DigitRunOfDigits(p, "", 10);
    assert p + "" == p;
  }

  /** A character that is not a digit ends the run of digits before the end of the string. */
  lemma NonDigitEndsRun(s: string, k: nat, radix: nat)
    requires k < |s| && !IsDigit(s[k], radix)
    ensures DigitRun(s, radix) < |s|
  {
    if DigitRun(s, radix) == |s| {
      DigitRunWhole(s, radix);
    }
  }

  /** PostgreSQL reads back the numeral `String(k)` gives for every k of the integer range. */
  lemma PgIntegerOfDecimal(k: int)
    requires Int4Min <= k <= Int4Max
    ensures PgInteger(DecimalString(k)) == Some(k)
  {
    var m: nat := if k < 0 then -k else k;
    var p := NaturalString(m);
    NaturalNumeral(m);
    if k < 0 {
      var d := "-" + p;
      assert d[|d| - 1] == p[|p| - 1];
      assert StripSign(d) == p;
      PgNumeralOfDigits(d, p);
    } else {
      assert StripSign(p) == p;
      PgNumeralOfDigits(p, p);
    }
  }

  /**
   * A numeral followed by text that starts with neither a digit nor white
   * space is refused: "12abc", which passes parseInt, is an error here.
   */
  lemma {:induction false} TrailingTextRefused(n: int, rest: string)
    requires rest != [] && !IsDigit(rest[0], 10) && !IsPgSpace(rest[0])
    ensures PgNumeral(DecimalString(n) + rest).None?
  {
    var d := DecimalString(n);
    var m: nat := if n < 0 then -n else n;
    NaturalNumeral(m);
    var s := d + rest;
    assert s[0] == d[0];
    assert d[0] == '-' || d[0] == NaturalString(m)[0];
    assert SkipPgSpace(s) == s;
    var t := DropTrailingPgSpace(s);
    DropTrailingPgSpaceIsPrefix(s);
    assert s[|d|] == rest[0];
    assert |t| > |d|;
    var u := StripSign(t);
    var k := if t[0] == '-' || t[0] == '+' then |d| - 1 else |d|;
    assert u[k] == t[|d|] == rest[0];
    NonDigitEndsRun(u, k, 10);
  }

  /** A numeral in PostgreSQL's syntax, white space before it removed, starts as parseInt wants. */
  lemma PgTextStartsNumeric(w: string)
    requires var u := StripSign(DropTrailingPgSpace(w)); u != [] && DigitRun(u, 10) == |u|
    ensures StartsNumeric(w)
  {
    var t := DropTrailingPgSpace(w);
    DropTrailingPgSpaceIsPrefix(w);
    var u := StripSign(t);
    DigitRunWhole(u, 10);
    var v := StripSign(w);
    assert |v| >= |u| && v[..|u|] == u;
    assert v[0] == u[0];
    if |u| > 1 {
      assert v[1] == u[1];
    } else if |v| > 1 {
      assert v[1] == w[|w| - |v| + 1];
      assert IsPgSpace(v[1]);
    }
  }

  /**
   * Every text PostgreSQL reads as an integer passes the handlers' id check:
   * after white space it starts with a sign or a digit, and it has no "0x".
   */
  lemma PgIntegerPassesIdCheck(s: string)
    requires PgInteger(s).Some?
    ensures !IdRejected(s)
  {
    var w := SkipPgSpace(s);
    SkipPgSpaceIsSuffix(s);
    PgTextStartsNumeric(w);
    var i := |s| - |w|;
    assert s[i..] == w;
    assert forall j :: 0 <= j < i ==> IsWhiteSpace(s[j]);
    ParseIntNaNIff(s);
  }

  // ---------------------------------------------------------------------------
  // WHERE article_id = $1
  // ---------------------------------------------------------------------------

  /** The articles with the given id, in table order. */
  function ArticlesWithId(articles: seq<Article>, id: int): (r: seq<Article>)
    ensures forall a :: a in r <==> a in articles && a.articleId == id
  {
    if articles == [] then []
    else (if articles[0].articleId == id then [articles[0]] else []) + ArticlesWithId(articles[1..], id)
  }

  /** The comments on the given article, in table order, each as often as in the table. */
  function CommentsOn(comments: seq<Comment>, id: int): (r: seq<Comment>)
    ensures forall c :: multiset(r)[c] == if c.articleId == id then multiset(comments)[c] else 0
  {
    if comments == [] then []
    else
      assert comments == [comments[0]] + comments[1..];
      (if comments[0].articleId == id then [comments[0]] else []) + CommentsOn(comments[1..], id)
  }

  /** The `article_id` column of the comments table. */
  function ArticleIdColumn(comments: seq<Comment>): seq<int>
  {
    seq(|comments|, i requires 0 <= i < |comments| => comments[i].articleId)
  }

  /** COUNT(comments.article_id) over the LEFT JOIN for one article: how often its id occurs in the column. */
  function CommentCount(comments: seq<Comment>, id: int): nat
  {
    multiset(ArticleIdColumn(comments))[id]
  }

  /** The comments on an article are as many as the listing's comment count for it. */
  lemma {:induction false} CommentsOnCounted(comments: seq<Comment>, id: int)
    ensures |CommentsOn(comments, id)| == CommentCount(comments, id)
  {
    if comments != [] {
      CommentsOnCounted(comments[1..], id);
      CommentCountCons(comments, id);
      assert |CommentsOn(comments, id)| == (if comments[0].articleId == id then 1 else 0) + |CommentsOn(comments[1..], id)|;
    }
  }

  /** The count over a table is the first row's share plus the count over the rest. */
  lemma CommentCountCons(comments: seq<Comment>, id: int)
    requires comments != []
    ensures CommentCount(comments, id)
         == (if comments[0].articleId == id then 1 else 0) + CommentCount(comments[1..], id)
  {
    var col, colRest := ArticleIdColumn(comments), ArticleIdColumn(comments[1..]);
    assert col == [comments[0].articleId] + colRest;
    assert multiset(col) == multiset([comments[0].articleId]) + multiset(colRest);
  }

  // ---------------------------------------------------------------------------
  // ORDER BY created_at DESC
  // ---------------------------------------------------------------------------

  /** Non-increasing in the key: the order ORDER BY key DESC asks for. */
  predicate Descending<T>(s: seq<T>, key: T -> int)
  {
    forall i, j :: 0 <= i < j < |s| ==> key(s[i]) >= key(s[j])
  }

  /** Every element's key is at most `bound`. */
  predicate AllAtMost<T>(s: seq<T>, key: T -> int, bound: int)
  {
    forall i :: 0 <= i < |s| ==> key(s[i]) <= bound
  }

  lemma {:induction false} AllAtMostOfSameElements<T>(s: seq<T>, t: seq<T>, key: T -> int, bound: int)
    requires multiset(s) == multiset(t)
    requires AllAtMost(t, key, bound)
    ensures AllAtMost(s, key, bound)
  {
    forall i | 0 <= i < |s|
      ensures key(s[i]) <= bound
    {
      assert s[i] in multiset(t);
      var j :| 0 <= j < |t| && t[j] == s[i];
    }
  }

  /** Inserts `x` into a descending sequence, after every element with a greater or equal key. */
  function InsertDescending<T>(x: T, s: seq<T>, key: T -> int): (r: seq<T>)
    requires Descending(s, key)
    ensures Descending(r, key)
    ensures multiset(r) == multiset(s) + multiset{x}
  {
    if s == [] then [x]
    else if key(x) >= key(s[0]) then
      assert forall j :: 0 <= j < |s| ==> key(s[0]) >= key(s[j]);
      [x] + s
    else
      var rest := InsertDescending(x, s[1..], key);
      assert s == [s[0]] + s[1..];
      assert AllAtMost(s[1..] + [x], key, key(s[0]));
      assert multiset(rest) == multiset(s[1..] + [x]);
      AllAtMostOfSameElements(rest, s[1..] + [x], key, key(s[0]));
      [s[0]] + rest
  }

  /** The elements of `s` ordered by descending key (ties in any order the sort leaves them). */
  function SortDescending<T>(s: seq<T>, key: T -> int): (r: seq<T>)
    ensures Descending(r, key)
    ensures multiset(r) == multiset(s)
  {
    if s == [] then []
    else
      assert s == [s[0]] + s[1..];
      InsertDescending(s[0], SortDescending(s[1..], key), key)
  }

  /**
   * `rows` is an answer the store may give to a query whose rows, before
   * ORDER BY key DESC, are `unordered`: the same rows, each as often,
   * ordered by the key; rows with equal keys may come in any order.
   */
  ghost predicate OrderedAnswer<T>(rows: seq<T>, unordered: seq<T>, key: T -> int)
  {
    multiset(rows) == multiset(unordered) && Descending(rows, key)
  }

  /** Rows of an ordered answer are exactly the rows of the query. */
  lemma {:induction false} OrderedAnswerMembers<T>(rows: seq<T>, unordered: seq<T>, key: T -> int)
    requires OrderedAnswer(rows, unordered, key)
    ensures |rows| == |unordered|
    ensures forall x :: x in rows <==> x in unordered
  {
    assert |multiset(rows)| == |multiset(unordered)|;
    forall x
      ensures x in rows <==> x in unordered
    {
      assert x in rows <==> x in multiset(rows);
      assert x in unordered <==> x in multiset(unordered);
    }
  }
}
