/** `count_words(subreddit, word_list, after=None, word_count=None)`: tally
    how often each keyword occurs as a whole token in the titles of every
    "hot" post, page by page, and print the tally sorted once the last page is
    reached. */
module CountWords {
  import opened Listing
  import opened Text
  import opened Ranking

  /** The `word_count` dictionary: folded keyword to count. */
  type Tally = map<string, int>

  function Get(t: Tally, k: string): int {
    if k in t then t[k] else 0
  }

  /** Every stored count is positive. */
  predicate Positive(t: Tally) {
    forall k :: k in t ==> t[k] > 0
  }

  /** The update of one keyword: nothing when it does not occur, otherwise add
      its count to the stored one, or store it if the keyword is new. */
  function Bump(t: Tally, k: string, count: nat): Tally {
    if count == 0 then t
    else if k in t then t[k := t[k] + count]
    else t[k := count]
  }

  /** How many entries of `keywords` fold to `k`. */
  function Mult(keywords: seq<string>, k: string): nat {
    if keywords == [] then 0
    else
      var n := |keywords| - 1;
      Mult(keywords[..n], k) + (if Lower(keywords[n]) == k then 1 else 0)
  }

  /** The `for keyword in word_list` loop over the tokens `words` of one
      title. */
  function AddKeywords(t: Tally, words: seq<string>, keywords: seq<string>): Tally {
    if keywords == [] then t
    else
      var n := |keywords| - 1;
      var k := Lower(keywords[n]);
      Bump(AddKeywords(t, words, keywords[..n]), k, Count(words, k))
  }

  /** The body of the `for post in posts` loop: an empty title is skipped,
      any other one is folded and split into tokens that the keywords are
      counted in. */
  function AddTitle(t: Tally, title: string, keywords: seq<string>): Tally {
    if title == "" then t else AddKeywords(t, Split(Lower(title)), keywords)
  }

  /** The `for post in posts` loop over one page's titles. */
  function AddPage(t: Tally, titles: seq<string>, keywords: seq<string>): Tally {
    if titles == [] then t
    else
      var n := |titles| - 1;
      AddTitle(AddPage(t, titles[..n], keywords), titles[n], keywords)
  }

  /** How many tokens equal to `k` the titles hold in all. */
  function Hits(titles: seq<string>, k: string): nat {
    if titles == [] then 0
    else
      var n := |titles| - 1;
      Hits(titles[..n], k) + TitleHits(titles[n], k)
  }

  /** `m * h`, written as repeated addition so that the counting proofs stay
      linear; `TimesIsProduct` ties it back to multiplication. */
  function Times(m: nat, h: nat): nat {
    if m == 0 then 0 else Times(m - 1, h) + h
  }

  lemma {:induction false} TimesIsProduct(m: nat, h: nat)
    ensures Times(m, h) == m * h
  {
    if m > 0 {
      TimesIsProduct(m - 1, h);
      assert (m - 1) * h + h == m * h;
    }
  }

  lemma {:induction false} TimesAdd(m: nat, a: nat, b: nat)
    ensures Times(m, a + b) == Times(m, a) + Times(m, b)
  {
    if m > 0 {
      TimesAdd(m - 1, a, b);
    }
  }

  lemma {:induction false} TimesZero(m: nat)
    ensures Times(m, 0) == 0
  {
    if m > 0 {
      TimesZero(m - 1);
    }
  }

  lemma {:induction false} TimesPositive(m: nat, h: nat)
    ensures Times(m, h) > 0 <==> m > 0 && h > 0
  {
    if m > 0 {
      TimesPositive(m - 1, h);
    }
  }

  /** One title adds, for each folded keyword `k`, the number of its tokens
      equal to `k` once per entry of the keyword list that folds to `k`; a
      keyword is stored only once it has matched. */
  lemma {:induction false} AddKeywordsEffect(t: Tally, words: seq<string>, keywords: seq<string>, k: string)
    ensures Get(AddKeywords(t, words, keywords), k) == Get(t, k) + Times(Mult(keywords, k), Count(words, k))
    ensures k in AddKeywords(t, words, keywords) <==> k in t || (Mult(keywords, k) > 0 && Count(words, k) > 0)
  {
    TimesPositive(Mult(keywords, k), Count(words, k));
    if keywords != [] {
      var n := |keywords| - 1;
      AddKeywordsEffect(t, words, keywords[..n], k);
      TimesPositive(Mult(keywords[..n], k), Count(words, k));
    }
  }

  /** A page adds, for each folded keyword `k`, its multiplicity in the
      keyword list times its token count over all the page's titles; a
      keyword is stored exactly when it was stored before or matched. */
  lemma AddPageEffect(t: Tally, titles: seq<string>, keywords: seq<string>, k: string)
    ensures Get(AddPage(t, titles, keywords), k) == Get(t, k) + Mult(keywords, k) * Hits(titles, k)
    ensures k in AddPage(t, titles, keywords) <==> k in t || (Mult(keywords, k) > 0 && Hits(titles, k) > 0)
  {
    AddPageCount(t, titles, keywords, k);
    TimesIsProduct(Mult(keywords, k), Hits(titles, k));
    AddPageKeys(t, titles, keywords, k);
  }

  lemma {:induction false} AddPageCount(t: Tally, titles: seq<string>, keywords: seq<string>, k: string)
    ensures Get(AddPage(t, titles, keywords), k) == Get(t, k) + Times(Mult(keywords, k), Hits(titles, k))
  {
    var m := Mult(keywords, k);
    if titles == [] {
      TimesZero(m);
      assert Hits(titles, k) == 0;
      assert AddPage(t, titles, keywords) == t;
    } else {
      AddPageCount(t, titles[..|titles| - 1], keywords, k);
      AddPageCountStep(t, titles, keywords, k);
    }
  }

  /** The inductive step of `AddPageCount`: the last title. */
  lemma AddPageCountStep(t: Tally, titles: seq<string>, keywords: seq<string>, k: string)
    requires titles != []
    requires var n := |titles| - 1;
             Get(AddPage(t, titles[..n], keywords), k) == Get(t, k) + Times(Mult(keywords, k), Hits(titles[..n], k))
    ensures Get(AddPage(t, titles, keywords), k) == Get(t, k) + Times(Mult(keywords, k), Hits(titles, k))
  {
    var n := |titles| - 1;
    var a, b := Hits(titles[..n], k), TitleHits(titles[n], k);
    var m := Mult(keywords, k);
    var before := AddPage(t, titles[..n], keywords);
    var after := AddTitle(before, titles[n], keywords);
    LastTitle(t, titles, keywords, k);
    TitleCount(before, titles[n], keywords, k);
    TimesStep(Get(t, k), Get(before, k), Get(after, k), m, a, b);
  }

  /** Adding `m` times `a` and then `m` times `b` adds `m` times `a + b`. */
  lemma TimesStep(start: int, middle: int, end: int, m: nat, a: nat, b: nat)
    requires middle == start + Times(m, a)
    requires end == middle + Times(m, b)
    ensures end == start + Times(m, a + b)
  {
    TimesAdd(m, a, b);
  }

  /** A run of titles is counted by counting all but the last, then the
      last. */
  lemma LastTitle(t: Tally, titles: seq<string>, keywords: seq<string>, k: string)
    requires titles != []
    ensures var n := |titles| - 1;
            && AddPage(t, titles, keywords) == AddTitle(AddPage(t, titles[..n], keywords), titles[n], keywords)
            && Hits(titles, k) == Hits(titles[..n], k) + TitleHits(titles[n], k)
  {
  }

  /** The counting of one title, by `AddKeywordsEffect`. */
  lemma TitleCount(t: Tally, title: string, keywords: seq<string>, k: string)
    ensures Get(AddTitle(t, title, keywords), k) == Get(t, k) + Times(Mult(keywords, k), TitleHits(title, k))
  {
    if title == "" {
      EmptyTitleHitsNothing(k);
      TimesZero(Mult(keywords, k));
    } else {
      AddKeywordsEffect(t, Split(Lower(title)), keywords, k);
    }
  }

  lemma {:induction false} AddPageKeys(t: Tally, titles: seq<string>, keywords: seq<string>, k: string)
    ensures k in AddPage(t, titles, keywords) <==> k in t || (Mult(keywords, k) > 0 && Hits(titles, k) > 0)
  {
    if titles != [] {
      var n := |titles| - 1;
      var t' := AddPage(t, titles[..n], keywords);
      AddPageKeys(t, titles[..n], keywords, k);
      if titles[n] != "" {
        AddKeywordsEffect(t', Split(Lower(titles[n])), keywords, k);
      }
    }
  }

  /** Counting never stores a zero or negative count, and never lowers or
      drops an entry that is already there. */
  lemma AddPageKeepsPositive(t: Tally, titles: seq<string>, keywords: seq<string>)
    requires Positive(t)
    ensures Positive(AddPage(t, titles, keywords))
    ensures forall k :: k in t ==> k in AddPage(t, titles, keywords) && AddPage(t, titles, keywords)[k] >= t[k]
  {
    var r := AddPage(t, titles, keywords);
    forall k | k in r ensures r[k] > 0 {
      AddPageGrows(t, titles, keywords, k);
    }
    forall k | k in t ensures k in r && r[k] >= t[k] {
      AddPageGrows(t, titles, keywords, k);
    }
  }

  /** One keyword's share of `AddPageKeepsPositive`. */
  lemma AddPageGrows(t: Tally, titles: seq<string>, keywords: seq<string>, k: string)
    requires Positive(t)
    ensures var r := AddPage(t, titles, keywords);
            && (k in r ==> r[k] > 0)
            && (k in t ==> k in r && r[k] >= t[k])
  {
    AddPageCount(t, titles, keywords, k);
    AddPageKeys(t, titles, keywords, k);
    TimesPositive(Mult(keywords, k), Hits(titles, k));
  }

  /** Counting two runs of titles one after the other is counting them all. */
  lemma {:induction false} AddPageAppend(t: Tally, a: seq<string>, b: seq<string>, keywords: seq<string>)
    ensures AddPage(t, a + b, keywords) == AddPage(AddPage(t, a, keywords), b, keywords)
    decreases |b|
  {
    if b == [] {
      assert a + b == a;
    } else {
      var n := |b| - 1;
      assert (a + b)[..|a + b| - 1] == a + b[..n];
      assert (a + b)[|a + b| - 1] == b[n];
      AddPageAppend(t, a, b[..n], keywords);
    }
  }

  /** Tokens are folded to lower case and split on whitespace. */
  lemma TokensFoldCase()
    ensures Split(Lower("Cats Dogs")) == ["cats", "dogs"]
  {
    assert "Cats Dogs" == JoinSpaced(["Cats", "Dogs"]);
    assert Lower("Cats") == "cats" && Lower("Dogs") == "dogs";
    assert LowerAll(["Cats", "Dogs"]) == ["cats", "dogs"];
    SplitLowerJoined(["Cats", "Dogs"]);
  }

  lemma TokensFoldCapitals()
    ensures Split(Lower("DOGS")) == ["dogs"]
  {
    assert "DOGS" == JoinSpaced(["DOGS"]);
    assert Lower("DOGS") == "dogs";
    assert LowerAll(["DOGS"]) == ["dogs"];
    SplitLowerJoined(["DOGS"]);
  }

  /** Punctuation stays part of its token: the title "cats!" is one token
      "cats!", which the keyword "cats" does not match. */
  lemma TokensKeepPunctuation()
    ensures Split(Lower("cats!")) == ["cats!"]
    ensures TitleHits("cats!", "cats") == 0 && TitleHits("cats!", "cats!") == 1
  {
    assert "cats!" == JoinSpaced(["cats!"]);
    assert Lower("cats!") == "cats!";
    assert LowerAll(["cats!"]) == ["cats!"];
    SplitLowerJoined(["cats!"]);
    var tokens := Split(Lower("cats!"));
    assert tokens == ["cats!"];
    assert TitleHits("cats!", "cats") == Count(tokens, "cats");
    assert TitleHits("cats!", "cats!") == Count(tokens, "cats!");
    assert Count(["cats!"], "cats") == 0;
  }

  lemma ExampleMult()
    ensures Mult(["dogs", "cats", "birds"], "dogs") == 1
    ensures Mult(["dogs", "cats", "birds"], "cats") == 1
    ensures Mult(["dogs", "cats", "birds"], "birds") == 1
  {
    assert Lower("dogs") == "dogs" && Lower("cats") == "cats" && Lower("birds") == "birds";
    assert ["dogs", "cats", "birds"][..2] == ["dogs", "cats"];
    assert ["dogs", "cats"][..1] == ["dogs"];
    assert ["dogs"][..0] == [];
    assert Mult(["dogs"], "dogs") == 1 && Mult(["dogs"], "cats") == 0 && Mult(["dogs"], "birds") == 0;
    assert Mult(["dogs", "cats"], "dogs") == 1 && Mult(["dogs", "cats"], "cats") == 1 && Mult(["dogs", "cats"], "birds") == 0;
  }

  lemma HitsOfThree(a: string, b: string, c: string, k: string)
    ensures Hits([a, b, c], k) == TitleHits(a, k) + TitleHits(b, k) + TitleHits(c, k)
  {
    assert [a, b, c][..2] == [a, b];
    assert [a, b][..1] == [a];
    assert [a][..0] == [];
    assert Hits([a], k) == TitleHits(a, k);
    assert Hits([a, b], k) == TitleHits(a, k) + TitleHits(b, k);
  }

  /** A worked counting example: over three titles that split into
      "cats dogs", "dogs" and "cats!" (such as "Cats Dogs", "DOGS" and
      "cats!", by `TokensFoldCase`, `TokensFoldCapitals` and
      `TokensKeepPunctuation`), the keywords
      "dogs", "cats" and "birds" count 2, 1 and nothing: "cats!" does not
      match "cats", and "birds" never enters the dictionary. */
  lemma CountingExample(a: string, b: string, c: string)
    requires Split(Lower(a)) == ["cats", "dogs"] && Split(Lower(b)) == ["dogs"] && Split(Lower(c)) == ["cats!"]
    ensures var t := AddPage(map[], [a, b, c], ["dogs", "cats", "birds"]);
            Get(t, "dogs") == 2 && Get(t, "cats") == 1 && "birds" !in t
  {
    var keywords := ["dogs", "cats", "birds"];
    ExampleMult();
    ExampleHits(a, b, c);
    AddPageEffect(map[], [a, b, c], keywords, "dogs");
    AddPageEffect(map[], [a, b, c], keywords, "cats");
    AddPageEffect(map[], [a, b, c], keywords, "birds");
  }

  lemma ExampleHits(a: string, b: string, c: string)
    requires Split(Lower(a)) == ["cats", "dogs"] && Split(Lower(b)) == ["dogs"] && Split(Lower(c)) == ["cats!"]
    ensures Hits([a, b, c], "dogs") == 2 && Hits([a, b, c], "cats") == 1 && Hits([a, b, c], "birds") == 0
  {
    HitsOfThree(a, b, c, "dogs");
    HitsOfThree(a, b, c, "cats");
    HitsOfThree(a, b, c, "birds");
    assert Count(["cats", "dogs"], "dogs") == 1 && Count(["dogs"], "dogs") == 1 && Count(["cats!"], "dogs") == 0;
    assert Count(["cats", "dogs"], "cats") == 1 && Count(["dogs"], "cats") == 0 && Count(["cats!"], "cats") == 0;
    assert Count(["cats", "dogs"], "birds") == 0 && Count(["dogs"], "birds") == 0 && Count(["cats!"], "birds") == 0;
  }

  /** A keyword listed twice, or in two casings, counts twice: "Cats" and
      "cats" against the title "cats" store 2. */
  lemma RepeatedKeywordCountsTwice()
    ensures Get(AddPage(map[], ["cats"], ["Cats", "cats"]), "cats") == 2
  {
    var keywords := ["Cats", "cats"];
    assert Lower("Cats") == "cats" && Lower("cats") == "cats";
    assert keywords[..1][..0] == [];
    assert Mult(keywords, "cats") == 2;
    SplitJoinSpaced(["cats"]);
    assert ["cats"][..0] == [];
    assert Hits(["cats"], "cats") == 1;
    AddPageEffect(map[], ["cats"], keywords, "cats");
  }

  /** What one top-level call leaves behind: whether it printed the report,
      and the contents of the `word_count` dictionary it updated. */
  datatype CountRun = CountRun(printed: bool, tally: Tally)

  /** The page is counted: a page, unless it has no posts and the call was
      made without a cursor. */
  predicate Counted(cursor: Option<string>, r: Response) {
    r.Page? && !(r.titles == [] && cursor.None?)
  }

  /** Another request follows the response. */
  predicate Continues(cursor: Option<string>, r: Response) {
    Counted(cursor, r) && r.after.Some?
  }

  /** The recursion of `count_words` for a valid subreddit, one response at a
      time, starting from the dictionary's contents `t`. */
  function Walk(t: Tally, keywords: seq<string>, cursor: Option<string>, o: seq<Response>): CountRun
    decreases |o|
  {
    if o == [] then CountRun(false, t)
    else match o[0]
      case Failure => CountRun(false, t)
      case Page(titles, after) =>
        if titles == [] && cursor.None? then CountRun(false, t)
        else
          var t' := AddPage(t, titles, keywords);
          if after.None? then CountRun(t' != map[], t')
          else Walk(t', keywords, after, o[1..])
  }

  /** The cursor of each request the recursion issues, starting with
      `cursor`. */
  function Cursors(cursor: Option<string>, o: seq<Response>): seq<Option<string>>
    decreases |o|
  {
    if o != [] && Continues(cursor, o[0]) then [cursor] + Cursors(o[0].after, o[1..]) else [cursor]
  }

  /** The index of the response that ends the traversal. Every response before
      it is a page with a next cursor (the first one also counted). */
  function Stop(cursor: Option<string>, o: seq<Response>): (k: nat)
    ensures k <= |o|
    ensures forall j :: 0 <= j < k ==> o[j].Page? && o[j].after.Some?
    ensures k > 0 ==> Continues(cursor, o[0])
    ensures 0 < k < |o| ==> !(o[k].Page? && o[k].after.Some?)
    ensures k == 0 < |o| ==> !Continues(cursor, o[0])
    decreases |o|
  {
    if o == [] || !Continues(cursor, o[0]) then 0 else 1 + Stop(o[0].after, o[1..])
  }

  /** The requests of a traversal: with `k` the index of the response that
      stops it, `k + 1` requests are issued, the first with the given cursor
      and each later one with the cursor of the page before it. */
  lemma {:induction false} CursorsOutcome(cursor: Option<string>, o: seq<Response>)
    ensures var k := Stop(cursor, o);
            var cs := Cursors(cursor, o);
            && |cs| == k + 1 && cs[0] == cursor
            && (forall j :: 1 <= j <= k ==> cs[j] == o[j - 1].after)
    decreases |o|
  {
    var k := Stop(cursor, o);
    if k > 0 {
      var tail := o[1..];
      CursorsOutcome(o[0].after, tail);
      var cs := Cursors(cursor, o);
      var rest := Cursors(o[0].after, tail);
      assert cs == [cursor] + rest;
      forall j | 1 <= j <= k ensures cs[j] == o[j - 1].after {
        if j > 1 {
          assert cs[j] == rest[j - 1] && o[j - 1] == tail[j - 2];
        }
      }
    }
  }

  /** Whether the stopping response is itself counted (a last page). */
  predicate LastCounted(cursor: Option<string>, o: seq<Response>) {
    var k := Stop(cursor, o);
    k < |o| && Counted(if k == 0 then cursor else o[k - 1].after, o[k])
  }

  /** How many responses have their posts counted: those before the stop,
      and the stopping one when it is a counted last page. */
  function Reached(cursor: Option<string>, o: seq<Response>): (n: nat)
    ensures n <= |o|
  {
    if LastCounted(cursor, o) then Stop(cursor, o) + 1 else Stop(cursor, o)
  }

  /** Past a response that continues, the traversal goes on from the next
      cursor. */
  lemma StopStep(cursor: Option<string>, o: seq<Response>)
    requires o != [] && Continues(cursor, o[0])
    ensures Stop(cursor, o) == 1 + Stop(o[0].after, o[1..])
    ensures LastCounted(cursor, o) == LastCounted(o[0].after, o[1..])
    ensures Reached(cursor, o) == 1 + Reached(o[0].after, o[1..])
  {
    var k := Stop(cursor, o);
    var tail := o[1..];
    if k - 1 > 0 {
      assert tail[k - 2] == o[k - 1];
    }
    if k < |o| {
      assert tail[k - 1] == o[k];
    }
  }

  /** The dictionary ends up holding the counts of the titles of every
      reached response, added to what it held before the call. */
  lemma {:induction false} WalkTally(t: Tally, keywords: seq<string>, cursor: Option<string>, o: seq<Response>)
    ensures Walk(t, keywords, cursor, o).tally == AddPage(t, Titles(o[..Reached(cursor, o)]), keywords)
    decreases |o|
  {
    var n := Reached(cursor, o);
    if o != [] && Continues(cursor, o[0]) {
      WalkTally(AddPage(t, o[0].titles, keywords), keywords, o[0].after, o[1..]);
      WalkTallyStep(t, keywords, cursor, o);
    } else if n == 1 {
      TitlesPrefix(o, 1);
      assert o[1..][..0] == [];
      assert o[0].titles + [] == o[0].titles;
    } else {
      assert o[..n] == [];
    }
  }

  /** One step of `WalkTally`: counting the first page and then the rest
      is counting all the reached pages. */
  lemma WalkTallyStep(t: Tally, keywords: seq<string>, cursor: Option<string>, o: seq<Response>)
    requires o != [] && Continues(cursor, o[0])
    requires var t' := AddPage(t, o[0].titles, keywords);
             Walk(t', keywords, o[0].after, o[1..]).tally == AddPage(t', Titles(o[1..][..Reached(o[0].after, o[1..])]), keywords)
    ensures Walk(t, keywords, cursor, o).tally == AddPage(t, Titles(o[..Reached(cursor, o)]), keywords)
  {
    var n := Reached(cursor, o);
    StopStep(cursor, o);
    TitlesPrefix(o, n);
    AddPageAppend(t, o[0].titles, Titles(o[1..][..n - 1]), keywords);
  }

  lemma TitlesPrefix(o: seq<Response>, n: nat)
    requires 0 < n <= |o| && o[0].Page?
    ensures Titles(o[..n]) == o[0].titles + Titles(o[1..][..n - 1])
  {
    assert o[..n][1..] == o[1..][..n - 1];
  }

  /** The report is printed exactly when the traversal ends on a counted last
      page and the dictionary is non-empty by then. A failure, a used-up
      oracle, or an empty first page of a call without a cursor prints
      nothing, whatever was counted before. */
  lemma {:induction false} WalkPrinted(t: Tally, keywords: seq<string>, cursor: Option<string>, o: seq<Response>)
    ensures var run := Walk(t, keywords, cursor, o);
            run.printed <==> LastCounted(cursor, o) && run.tally != map[]
    ensures LastCounted(cursor, o) ==> o[Stop(cursor, o)].after.None?
    decreases |o|
  {
    if o != [] && Continues(cursor, o[0]) {
      StopStep(cursor, o);
      WalkPrinted(AddPage(t, o[0].titles, keywords), keywords, o[0].after, o[1..]);
      var k := Stop(cursor, o);
      if LastCounted(cursor, o) {
        assert o[1..][k - 1] == o[k];
      }
    }
  }

  /** A failure ends the traversal without output, even after pages whose
      titles matched. */
  lemma FailurePrintsNothing(t: Tally, keywords: seq<string>, cursor: Option<string>, o: seq<Response>, k: nat)
    requires k < |o| && o[k].Failure?
    requires forall j :: 0 <= j < k ==> o[j].Page? && o[j].after.Some?
    requires k > 0 ==> Continues(cursor, o[0])
    ensures !Walk(t, keywords, cursor, o).printed
  {
    StopIsFirst(cursor, o, k);
    WalkPrinted(t, keywords, cursor, o);
  }

  /** The stop index is the first response that does not continue. */
  lemma StopIsFirst(cursor: Option<string>, o: seq<Response>, k: nat)
    requires k < |o| && !o[k].Page?
    requires forall j :: 0 <= j < k ==> o[j].Page? && o[j].after.Some?
    requires k > 0 ==> Continues(cursor, o[0])
    ensures Stop(cursor, o) == k
  {
  }

  /** The per-keyword totals after a whole traversal: the starting count plus
      the keyword's multiplicity times its token count over every counted
      title; a keyword is stored exactly when it started stored or matched. */
  lemma WalkCounts(t: Tally, keywords: seq<string>, cursor: Option<string>, o: seq<Response>, k: string)
    ensures var titles := Titles(o[..Reached(cursor, o)]);
            var r := Walk(t, keywords, cursor, o).tally;
            && Get(r, k) == Get(t, k) + Mult(keywords, k) * Hits(titles, k)
            && (k in r <==> k in t || (Mult(keywords, k) > 0 && Hits(titles, k) > 0))
  {
    WalkTally(t, keywords, cursor, o);
    AddPageEffect(t, Titles(o[..Reached(cursor, o)]), keywords, k);
  }

  /** Starting from an empty or positive dictionary, every count it ever
      holds is positive. */
  lemma WalkKeepsPositive(t: Tally, keywords: seq<string>, cursor: Option<string>, o: seq<Response>)
    requires Positive(t)
    ensures Positive(Walk(t, keywords, cursor, o).tally)
  {
    WalkTally(t, keywords, cursor, o);
    AddPageKeepsPositive(t, Titles(o[..Reached(cursor, o)]), keywords);
  }

  /** The `for keyword in word_list` loop for the tokens of one title. */
  method CountTitle(tally: Tally, words: seq<string>, wordList: seq<string>) returns (tally': Tally)
    ensures tally' == AddKeywords(tally, words, wordList)
  {
    tally' := tally;
    for m := 0 to |wordList|
      invariant tally' == AddKeywords(tally, words, wordList[..m])
    {
      assert wordList[..m + 1][..m] == wordList[..m];
      var keyword := Lower(wordList[m]);
      var count := Count(words, keyword);
      if count > 0 {
        if keyword in tally' {
          tally' := tally'[keyword := tally'[keyword] + count];
        } else {
          tally' := tally'[keyword := count];
        }
      }
    }
    assert wordList[..|wordList|] == wordList;
  }

  /** The `for post in posts` loop over one page. */
  method CountPage(tally: Tally, titles: seq<string>, wordList: seq<string>) returns (tally': Tally)
    ensures tally' == AddPage(tally, titles, wordList)
  {
    tally' := tally;
    for j := 0 to |titles|
      invariant tally' == AddPage(tally, titles[..j], wordList)
    {
      assert titles[..j + 1][..j] == titles[..j];
      var title := titles[j];
      if title != "" {
        var words := Split(Lower(title));
        tally' := CountTitle(tally', words, wordList);
      }
    }
    assert titles[..|titles|] == titles;
  }

  /** The traversal ends at `o[0]` without counting it: the oracle is used
      up, the response is a failure, or it is an empty first page of a call
      without a cursor. */
  lemma WalkStops(t: Tally, keywords: seq<string>, cursor: Option<string>, o: seq<Response>)
    requires o == [] || !Counted(cursor, o[0])
    ensures Walk(t, keywords, cursor, o) == CountRun(false, t)
    ensures Cursors(cursor, o) == [cursor]
  {
  }

  /** The traversal ends at `o[0]` after counting it, as the last page. */
  lemma WalkLast(t: Tally, keywords: seq<string>, cursor: Option<string>, o: seq<Response>)
    requires o != [] && Counted(cursor, o[0]) && o[0].after.None?
    ensures var t' := AddPage(t, o[0].titles, keywords);
            Walk(t, keywords, cursor, o) == CountRun(t' != map[], t')
    ensures Cursors(cursor, o) == [cursor]
  {
  }

  /** The traversal counts `o[0]` and goes on from its cursor. */
  lemma WalkNext(t: Tally, keywords: seq<string>, cursor: Option<string>, o: seq<Response>)
    requires o != [] && Continues(cursor, o[0])
    ensures Walk(t, keywords, cursor, o) == Walk(AddPage(t, o[0].titles, keywords), keywords, o[0].after, o[1..])
    ensures Cursors(cursor, o) == [cursor] + Cursors(o[0].after, o[1..])
  {
  }

  /** The requests and counting of `count_words` for a valid subreddit `name`,
      one call per response as in the source's recursion: `tally` holds the
      dictionary on entry and `tally'` on return, and `printed` tells whether
      the call that received the last page found the dictionary non-empty and
      printed it. */
  method Traverse(name: string, wordList: seq<string>, cursor: Option<string>, tally: Tally,
                  oracle: seq<Response>)
    returns (printed: bool, tally': Tally, requests: seq<Request>)
    ensures CountRun(printed, tally') == Walk(tally, wordList, cursor, oracle)
    ensures requests == RequestsFor(name, Cursors(cursor, oracle))
    decreases |oracle|
  {
    var request := RequestFor(name, cursor);
    if oracle == [] || !Counted(cursor, oracle[0]) {
      WalkStops(tally, wordList, cursor, oracle);
      return false, tally, [request];
    }
    var response := oracle[0];
    var counted := CountPage(tally, response.titles, wordList);
    if response.after.None? {
      WalkLast(tally, wordList, cursor, oracle);
      return counted != map[], counted, [request];
    }
    WalkNext(tally, wordList, cursor, oracle);
    var later;
    printed, tally', later := Traverse(name, wordList, response.after, counted, oracle[1..]);
    requests := [request] + later;
    assert ([cursor] + Cursors(response.after, oracle[1..]))[1..] == Cursors(response.after, oracle[1..]);
  }

  /** `count_words` for one top-level call. `wordCount` is the dictionary passed
      in (an empty one when the caller omits it) and `tally` its contents when
      the call returns; `report` is what the call prints, as entries and as
      `lines`; `requests` are the requests issued, in order. */
  method CountWords(subreddit: PyValue, wordList: seq<string>, after: Option<string>, wordCount: Tally,
                    oracle: seq<Response>)
    returns (lines: seq<string>, report: seq<Entry>, tally: Tally, requests: seq<Request>)
    ensures !IsSubreddit(subreddit) ==> lines == [] && report == [] && tally == wordCount && requests == []
    ensures IsSubreddit(subreddit) ==>
              var run := Walk(wordCount, wordList, after, oracle);
              && tally == run.tally
              && report == (if run.printed then Report(run.tally) else [])
              && lines == Render(report)
              && requests == RequestsFor(subreddit.s, Cursors(after, oracle))
  {
    if !IsSubreddit(subreddit) {
      return [], [], wordCount, [];
    }
    var printed;
    printed, tally, requests := Traverse(subreddit.s, wordList, after, wordCount, oracle);
    report := if printed then Report(tally) else [];
    lines := Render(report);
  }
}
