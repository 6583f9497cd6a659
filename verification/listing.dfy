/** Shared vocabulary of the two "hot" listing traversals: the values a caller
    may pass as the subreddit, the page oracle that stands in for the HTTP
    request, and the query parameters each request carries. */
module Listing {

  datatype Option<+T> = None | Some(value: T)

  /** The dynamically typed `subreddit` argument: Python `None`, a `str`, or
      any other object. */
  datatype PyValue = PyNone | PyStr(s: string) | PyOther

  /** The input guard shared by both traversals: the argument must be a `str`;
      an empty string passes. */
  predicate IsSubreddit(v: PyValue) {
    v.PyStr?
  }

  /** What one call of the listing endpoint produces, once the transport and the
      JSON decoding are abstracted away. `Failure` stands for a status other
      than 200 and for any raised exception. In a `Page`, `titles` holds one
      entry per post of `data.children` (a missing title reads as ""), and
      `after` is the `data.after` cursor, `None` when the field is null or
      absent. The page oracle is a `seq<Response>` handed out in order, one
      response per request; once it is used up, every further request fails. */
  datatype Response = Failure | Page(titles: seq<string>, after: Option<string>)

  /** A GET of `https://www.reddit.com/r/<subreddit>/hot.json` with its query
      parameters. */
  datatype Request = Request(subreddit: string, limit: int, after: Option<string>)

  const PageLimit: int := 100

  /** The request issued for the current cursor: `limit=100` always, and an
      `after` parameter exactly when the cursor is truthy (present and
      non-empty). */
  function RequestFor(subreddit: string, cursor: Option<string>): (r: Request)
    ensures r.subreddit == subreddit && r.limit == 100
    ensures r.after.Some? <==> cursor.Some? && cursor.value != ""
    ensures r.after.Some? ==> r.after == cursor
  {
    Request(subreddit, PageLimit, if cursor.Some? && cursor.value != "" then cursor else None)
  }

  /** The requests issued for a sequence of cursors, in order. */
  function RequestsFor(subreddit: string, cursors: seq<Option<string>>): (rs: seq<Request>)
    ensures |rs| == |cursors|
    ensures forall j :: 0 <= j < |cursors| ==> rs[j] == RequestFor(subreddit, cursors[j])
  {
    if cursors == [] then [] else [RequestFor(subreddit, cursors[0])] + RequestsFor(subreddit, cursors[1..])
  }

  /** All post titles of the pages in `rs`, in page order (a `Failure`
      contributes none). */
  function Titles(rs: seq<Response>): seq<string>
  {
    if rs == [] then []
    else (if rs[0].Page? then rs[0].titles else []) + Titles(rs[1..])
  }

  lemma {:induction false} TitlesAppend(a: seq<Response>, b: seq<Response>)
    ensures Titles(a + b) == Titles(a) + Titles(b)
  {
    if a == [] {
      assert a + b == b;
    } else {
      assert (a + b)[1..] == a[1..] + b;
      TitlesAppend(a[1..], b);
    }
  }
}
