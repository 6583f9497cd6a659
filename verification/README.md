# Reddit "hot" listing traversals

This project models two scripts of the `api_advanced` directory. Both walk the
"hot" listing of a subreddit page by page, following the listing's `after`
cursor.

- `recurse(subreddit, hot_list=[], after=None)` appends every non-empty post
  title to `hot_list`. It returns the list, or `None`.
- `count_words(subreddit, word_list, after=None, word_count=None)` folds each
  title to lower case and splits it on whitespace. For every keyword it adds the
  keyword's token count to `word_count`. When the last page is reached, it
  prints the non-empty tally as `word: count` lines. The lines are sorted by
  descending count, then by ascending word.

The HTTP call is replaced by a page oracle, a `seq<Response>` with one response
per request:
- `Failure` stands for a status other than 200 and for any exception.
- `Page(titles, after)` gives the page's titles (a missing title is `""`) and
  its next cursor.
- Once the oracle is used up, every further request fails.

The model has five modules.
- `Listing` holds the shared vocabulary. It covers the input guard, the
  oracle, the request each call issues (`limit=100`, plus `after` only for a
  truthy cursor) and the titles of a run of pages.
- `Text` holds the string operations: `str.lower()` on ASCII letters,
  `str.split()` with Python's whitespace set, and `list.count`.
- `Ranking` holds the report. It covers the sort key `(-count, word)` with
  Python's string order, the sorted report of a tally, and the printed lines.
- `Recurse` models `recurse`.
- `CountWords` models `count_words`.

Each traversal is modelled on two levels.
- A recursive specification function, `Collect` or `Walk`, follows the
  source's recursion one response at a time. Around it, lemmas characterise
  the outcome without recursion, in terms of the index of the response that
  stops the traversal.
- Methods do what the code does, step by step.
  - A loop over a page's titles (`AppendTitles`, `CountPage`) is a `for` loop.
  - The keyword loop of one title is the `for` loop of `CountTitle`. It
    updates the dictionary with the same if-present/else-store branch as the
    source.
  - The tail recursion over pages is a recursive method, `Fetch` or
    `Traverse`. It is proved equal to the specification function, including
    the exact sequence of requests it issues.

The mutated accumulator (`hot_list`, `word_count`) is modelled by its
contents. A method receives them on entry and returns them on exit, so the
caller sees what the shared object holds afterwards. This also covers the
shared default list of `recurse`: `SharedDefaultLeaks` shows a second call
starting from titles left behind by an earlier failed call.

Two behaviours of the code are easy to miss.
- A failure after earlier pages have produced titles makes `recurse` return
  `None`, not the partial list (`FailureDiscardsTitles`,
  `LaterFailureReturnsNone`).
- An empty string passes the subreddit guard of both scripts. Only `None` and
  non-`str` values are rejected.

## Model

| member | source | states |
|---|---|---|
| Listing.IsSubreddit | api_advanced/2-recurse.py:27-28 | the guard of both scripts (also api_advanced/3-count.py:31-32): only a `str` passes, an empty one included; its effect is stated by `Recurse.Recurse` and `CountWords.CountWords` |
| Listing.RequestFor | api_advanced/2-recurse.py:34-37 | every request carries `limit=100`; it carries `after` exactly when the cursor is present and non-empty, and then carries that cursor |
| Listing.RequestsFor | api_advanced/3-count.py:38-41 | one request per cursor, in order, each built by the `limit`/`after` rule |
| Text.Lower | api_advanced/3-count.py:60 | ASCII `str.lower()`; its behaviour is stated by `LowerChars`, `LowerIdempotent` and `LowerKeepsSpaces` |
| Text.LowerChars | api_advanced/3-count.py:60 | folding keeps the length, maps each character on its own, and leaves no ASCII capital |
| Text.LowerIdempotent | api_advanced/3-count.py:60-63 | folding an already folded string changes nothing, so keyword and title folding agree |
| Text.LowerKeepsSpaces | api_advanced/3-count.py:60 | folding keeps every whitespace and non-whitespace position, so it does not change where a title splits |
| Text.SkipSpace | api_advanced/3-count.py:60 | the whitespace `split()` skips before a token: the rest is no longer and starts with non-whitespace; `SkipSpaceSkips` states what is dropped |
| Text.SkipSpaceSkips | api_advanced/3-count.py:60 | what the split drops before a token is a run of whitespace, and the rest is kept |
| Text.WordLen | api_advanced/3-count.py:60 | a token ends at the first whitespace or at the end of the string, and is non-empty when the string starts with non-whitespace |
| Text.WordLenNoSpace | api_advanced/3-count.py:60 | a token holds no whitespace |
| Text.Split | api_advanced/3-count.py:60 | `str.split()` with no separator; its behaviour is stated by `SplitTokens`, `SplitWordThen`, `SplitJoinSpaced` and `SplitLowerJoined` |
| Text.SplitTokens | api_advanced/3-count.py:60 | `split()` never yields an empty token or one holding whitespace |
| Text.SplitWordThen | api_advanced/3-count.py:60 | a whitespace-free word followed by whitespace or the end of the string is split off as one token |
| Text.SplitJoinSpaced | api_advanced/3-count.py:60 | splitting words joined by single spaces gives the words back |
| Text.LowerJoinSpaced | api_advanced/3-count.py:60 | folding words joined by spaces is joining the folded words |
| Text.SplitLowerJoined | api_advanced/3-count.py:60 | the tokens of such a title are its words, folded |
| Text.Count | api_advanced/3-count.py:64 | `list.count` is at most the list's length, and positive exactly when the word is in the list |
| Text.CountIsMultiset | api_advanced/3-count.py:64 | `list.count(w)` is the number of occurrences of `w` in the list, its multiplicity in the multiset of entries |
| Text.TitleHits | api_advanced/3-count.py:60-64 | one title's contribution to a folded keyword: the count of tokens of the folded title equal to it; `TitleCount` and `AddKeywordsEffect` state its use, `EmptyTitleHitsNothing` the empty title |
| Text.EmptyTitleHitsNothing | api_advanced/3-count.py:58-59 | an empty or missing title matches no keyword |
| Ranking.Less | api_advanced/3-count.py:75-76 | Python's `<` on `str`, the second part of the sort key; `LessTotal`, `LessTransitive` and `LessIrreflexive` state that it is a strict total order |
| Ranking.LessIrreflexive | api_advanced/3-count.py:75-76 | no word sorts before itself |
| Ranking.LessAsymmetric | api_advanced/3-count.py:75-76 | no two words sort before each other |
| Ranking.Before | api_advanced/3-count.py:75-76 | the sort key `(-count, word)`; `BeforeAsymmetric`, `BeforeTransitive` and `BeforeTotal` state that it is a strict total order on entries with distinct words |
| Ranking.LessTotal | api_advanced/3-count.py:74-76 | Python's string `<` orders any two distinct words |
| Ranking.LessTransitive | api_advanced/3-count.py:74-76 | Python's string `<` is transitive |
| Ranking.BeforeAsymmetric | api_advanced/3-count.py:74-76 | the sort key `(-count, word)` never puts two entries before each other |
| Ranking.BeforeTransitive | api_advanced/3-count.py:74-76 | the sort key order is transitive |
| Ranking.BeforeTotal | api_advanced/3-count.py:74-76 | the sort key order relates any two entries with distinct words |
| Ranking.Report | api_advanced/3-count.py:74-76 | the report lists every tally item exactly once, with its count, strictly ordered by descending count and then ascending word |
| Ranking.ReportUnique | api_advanced/3-count.py:74-76 | there is only one such ordering of a tally, so the report is determined by the tally |
| Ranking.ReportTail | api_advanced/3-count.py:74-78 | after the first printed line, the rest is the report of the tally without that word |
| Ranking.WordsEmpty | api_advanced/3-count.py:73-78 | a report lists no words exactly when it is empty |
| Ranking.NatDigits | api_advanced/3-count.py:78 | a count is printed as a non-empty run of decimal digits |
| Ranking.NatDigitsValue | api_advanced/3-count.py:78 | the printed digits are the decimal notation of the count: they denote it, and carry no leading zero except for 0 itself |
| Ranking.IntText | api_advanced/3-count.py:78 | `str()` of a count: its digits by `NatDigits`, with `NatDigitsValue` stating their value |
| Ranking.Line | api_advanced/3-count.py:78 | one printed line, the word, ": " and the count's text; `Render` states one per entry and `RenderExample` shows them |
| Ranking.Render | api_advanced/3-count.py:77-78 | one printed line per report entry, in report order, each `word: count` |
| Ranking.ReportExample | api_advanced/3-count.py:74-76 | counts a=2, b=3, c=2 are reported as b, a, c |
| Ranking.RenderExample | api_advanced/3-count.py:77-78 | that report prints as `b: 3`, `a: 2`, `c: 2` |
| Recurse.Kept | api_advanced/2-recurse.py:53-56 | a page appends only its non-empty titles, and all of them |
| Recurse.KeptNonEmpty | api_advanced/2-recurse.py:53-56 | a page whose titles are all non-empty appends every title, in page order |
| Recurse.KeptAppend | api_advanced/2-recurse.py:53-56 | appending two runs of titles one after the other keeps their order |
| Recurse.Collect | api_advanced/2-recurse.py:36-63 | the recursion of `recurse` over the responses; its outcome is stated by `CollectOutcome`, `CollectExtends`, `FailureDiscardsTitles`, `EmptyPageEnds` and `LastPageReturnsList` |
| Recurse.Cursors | api_advanced/2-recurse.py:36-63 | the cursors of the requests `recurse` issues; stated by `CursorsOutcome` |
| Recurse.Stop | api_advanced/2-recurse.py:58-63 | the traversal stops at the first response that is not a page with posts and a next cursor |
| Recurse.CursorsOutcome | api_advanced/2-recurse.py:58-63 | a traversal stopped at response `k` issues `k + 1` requests: the first with the given cursor, each later one with the previous page's `after` |
| Recurse.CollectOutcome | api_advanced/2-recurse.py:12-66 | the outcome of every traversal: a failure or used-up oracle returns None, an empty page returns what was gathered (None when nothing), and a last page returns the list with its titles; the list object always ends up holding the passed list followed by the kept titles of the pages processed |
| Recurse.FailureDiscardsTitles | api_advanced/2-recurse.py:43-44 | a non-200 response or an exception on any page returns None, even after titles were appended; those titles stay in the list object |
| Recurse.EmptyPageEnds | api_advanced/2-recurse.py:50-51 | a page with no posts ends the traversal, returning None when nothing was gathered and the gathered list otherwise |
| Recurse.LastPageReturnsList | api_advanced/2-recurse.py:58-61 | a page without a next cursor returns the passed list followed by the non-empty titles of every page, in page order, and nothing more is fetched |
| Recurse.CollectExtends | api_advanced/2-recurse.py:56-63 | the list passed in is a prefix of the list afterwards, and any returned list is the list object itself |
| Recurse.CrossPageOrder | api_advanced/2-recurse.py:53-63 | pages ["a","b"] (cursor "X") and ["c"] return ["a","b","c"] after requests with no cursor and with "X" |
| Recurse.LaterFailureReturnsNone | api_advanced/2-recurse.py:43-44 | a failed second page returns None although "a" was appended |
| Recurse.SharedDefaultLeaks | api_advanced/2-recurse.py:12 | with the shared default list, a call after a failed one returns the failed call's title instead of None |
| Recurse.BlankTitlesReturnEmptyList | api_advanced/2-recurse.py:53-61 | a last page whose titles are all missing returns an empty list, not None |
| Recurse.AppendTitles | api_advanced/2-recurse.py:53-56 | the loop over posts leaves the list followed by the page's non-empty titles |
| Recurse.Fetch | api_advanced/2-recurse.py:36-63 | the recursive calls return and leave behind what `Collect` says, and issue exactly the requests of `Cursors` |
| Recurse.Recurse | api_advanced/2-recurse.py:27-28 | an invalid subreddit returns None with no request and the list untouched; a valid one runs the traversal of `Fetch` from the given cursor |
| CountWords.Bump | api_advanced/3-count.py:65-69 | one keyword's update: nothing on no match, otherwise add to the stored count or store the count; its effect is stated by `AddKeywordsEffect` |
| CountWords.Mult | api_advanced/3-count.py:62-63 | how many `word_list` entries fold to a keyword; the multiplicity in `AddKeywordsEffect` and `AddPageEffect` |
| CountWords.AddKeywords | api_advanced/3-count.py:62-69 | the keyword loop of one title; stated by `AddKeywordsEffect`, and `CountTitle` runs it |
| CountWords.AddTitle | api_advanced/3-count.py:58-69 | one post: an empty title is skipped, otherwise its keywords are counted; stated by `TitleCount` |
| CountWords.AddPage | api_advanced/3-count.py:57-69 | the post loop of one page; stated by `AddPageEffect`, `AddPageKeepsPositive` and `AddPageAppend`, and `CountPage` runs it |
| CountWords.Hits | api_advanced/3-count.py:57-64 | a keyword's token count over a run of titles; the factor in `AddPageEffect` and `WalkCounts` |
| CountWords.AddKeywordsEffect | api_advanced/3-count.py:62-69 | for one title, each folded keyword gains its token count once per keyword entry that folds to it, and is stored exactly when it was stored or matched |
| CountWords.TitleCount | api_advanced/3-count.py:58-69 | one title adds multiplicity times its token count to each keyword; an empty title adds nothing |
| CountWords.AddPageEffect | api_advanced/3-count.py:57-69 | after a page, each keyword's count is its old count plus its multiplicity in `word_list` times its token count over the page's titles; it is stored exactly when it was stored before or matched |
| CountWords.AddPageCount | api_advanced/3-count.py:57-69 | the count part of `AddPageEffect`, with the product written as repeated addition |
| CountWords.AddPageKeys | api_advanced/3-count.py:57-69 | the key part of `AddPageEffect` |
| CountWords.AddPageKeepsPositive | api_advanced/3-count.py:65-69 | every stored count stays positive, and no stored count decreases or disappears |
| CountWords.AddPageAppend | api_advanced/3-count.py:57-81 | counting two runs of titles in turn is counting them together |
| CountWords.TokensFoldCase | api_advanced/3-count.py:60 | "Cats Dogs" gives the tokens "cats" and "dogs" |
| CountWords.TokensFoldCapitals | api_advanced/3-count.py:60 | "DOGS" gives the token "dogs" |
| CountWords.TokensKeepPunctuation | api_advanced/3-count.py:60-64 | "cats!" stays one token "cats!", so the keyword "cats" counts 0 hits in it and "cats!" counts 1 |
| CountWords.CountingExample | api_advanced/3-count.py:57-69 | titles tokenised as "cats dogs", "dogs" and "cats!" give dogs 2 and cats 1, and "birds" is never stored |
| CountWords.RepeatedKeywordCountsTwice | api_advanced/3-count.py:62-69 | keywords "Cats" and "cats" against the title "cats" store 2 |
| CountWords.Walk | api_advanced/3-count.py:38-81 | the recursion of `count_words` over the responses; its outcome is stated by `WalkTally`, `WalkCounts`, `WalkPrinted`, `FailurePrintsNothing` and `WalkKeepsPositive` |
| CountWords.Cursors | api_advanced/3-count.py:38-81 | the cursors of the requests `count_words` issues: one per call, each call after the first with the previous page's `after`; stated by `CursorsOutcome` |
| CountWords.Stop | api_advanced/3-count.py:54-81 | the traversal stops at the first response that is not a counted page with a next cursor |
| CountWords.CursorsOutcome | api_advanced/3-count.py:71-81 | a traversal stopped at response `k` issues `k + 1` requests: the first with the given cursor, each later one with the previous page's `after` |
| CountWords.StopStep | api_advanced/3-count.py:71-81 | past a continuing page, the stop index, whether the last page is counted, and the number of counted pages all move on by one |
| CountWords.WalkTally | api_advanced/3-count.py:57-81 | the dictionary ends up holding its starting contents plus the counts of the titles of exactly the pages reached and counted |
| CountWords.WalkPrinted | api_advanced/3-count.py:73-79 | the report is printed exactly when the traversal ends on a counted page with no next cursor and the dictionary is non-empty |
| CountWords.FailurePrintsNothing | api_advanced/3-count.py:47-48 | a non-200 response or exception on any page prints nothing, whatever was counted before |
| CountWords.WalkCounts | api_advanced/3-count.py:57-81 | after the traversal, each keyword's count is its starting count plus multiplicity times its token count over every counted title |
| CountWords.WalkKeepsPositive | api_advanced/3-count.py:65-69 | starting from an empty or positive dictionary, every count stored is positive |
| CountWords.CountTitle | api_advanced/3-count.py:62-69 | the keyword loop leaves the dictionary as `AddKeywords` says |
| CountWords.CountPage | api_advanced/3-count.py:57-69 | the post loop skips empty titles and leaves the dictionary as `AddPage` says |
| CountWords.Traverse | api_advanced/3-count.py:34-81 | the recursive calls print and leave the dictionary as `Walk` says, and issue exactly the requests of `Cursors` |
| CountWords.CountWords | api_advanced/3-count.py:31-32 | an invalid subreddit prints nothing, issues no request and leaves the dictionary alone; a valid one prints the sorted report of the final dictionary exactly when `Walk` says it prints |

## Left out

- HTTP transport is not modelled: `requests.get`, the User-Agent header, `allow_redirects=False` and the URL. The oracle stands in for them, and its `Failure` covers every status other than 200 and every exception.
- JSON decoding and the `.get(..., {})` default chains are not modelled. A page arrives already reduced to its titles, with a missing title read as `""`, and its cursor.
- Exceptions raised part-way through a page are not modelled. Examples are a post that is not a dictionary, a title that is not a `str`, or a keyword that is not a `str`. The source has already appended or counted the earlier posts of that page. In the model a page is either a failure, which changes nothing, or fully processed.
- Titles and keywords are `str` only. A non-string truthy title is not modelled.
- Text.Lower: folds ASCII letters only, not full Unicode `str.lower()`. It has no ensures of its own; its properties are the lemmas `LowerChars`, `LowerIdempotent` and `LowerKeepsSpaces`.
- The whitespace set of `str.split()` is modelled as the characters for which `str.isspace()` is true. Nothing else of Unicode is modelled.
- Console output is not modelled as a side effect. `CountWords.CountWords` returns the entries it would print and the printed lines.
- The `word_count=None` default (api_advanced/3-count.py:28-29) is not a separate case. The caller passes an empty dictionary.
- Python's recursion-depth limit is not modelled. Neither is a server that keeps returning cursors forever, since the source has no cursor-cycle guard. Every traversal is bounded by the finite oracle.
- api_advanced/0-subs.py and the other files of the repository are not part of this model.
