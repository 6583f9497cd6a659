/** `recurse(subreddit, hot_list=[], after=None)`: collect the titles of every
    "hot" post of a subreddit, page by page, into `hot_list`. */
module Recurse {
  import opened Listing

  /** The titles a page appends: the non-empty ones, in page order. */
  function Kept(titles: seq<string>): (r: seq<string>)
    ensures |r| <= |titles|
    ensures forall t :: t in r <==> t in titles && t != ""
  {
    if titles == [] then []
    else
      var last := titles[|titles| - 1];
      var init := titles[..|titles| - 1];
      assert titles == init + [last];
      Kept(init) + (if last != "" then [last] else [])
  }

  /** A page whose titles are all non-empty appends all of them. */
  lemma {:induction false} KeptNonEmpty(titles: seq<string>)
    requires forall j :: 0 <= j < |titles| ==> titles[j] != ""
    ensures Kept(titles) == titles
  {
    if titles != [] {
      var init := titles[..|titles| - 1];
      KeptNonEmpty(init);
      assert titles == init + [titles[|titles| - 1]];
    }
  }

  lemma {:induction false} KeptAppend(a: seq<string>, b: seq<string>)
    ensures Kept(a + b) == Kept(a) + Kept(b)
    decreases |b|
  {
    if b == [] {
      assert a + b == a;
    } else {
      var init := b[..|b| - 1];
      assert (a + b)[..|a + b| - 1] == a + init;
      KeptAppend(a, init);
    }
  }

  /** A response after which the traversal issues another request: a page
      with at least one post and a next cursor. */
  predicate Continues(r: Response) {
    r.Page? && r.titles != [] && r.after.Some?
  }

  /** The index of the response that ends the traversal: the first one that
      does not continue it, or `|o|` when the oracle runs out first. */
  function Stop(o: seq<Response>): (k: nat)
    ensures k <= |o|
    ensures forall j :: 0 <= j < k ==> Continues(o[j])
    ensures k < |o| ==> !Continues(o[k])
  {
    if o == [] || !Continues(o[0]) then 0 else 1 + Stop(o[1..])
  }

  /** What one top-level call leaves behind: its return value and the
      contents of the `hot_list` object it appended to. */
  datatype TitleRun = TitleRun(result: Option<seq<string>>, list: seq<string>)

  /** The recursion of `recurse` for a valid subreddit, one response at a
      time, starting from the list object's contents `acc`. */
  function Collect(acc: seq<string>, o: seq<Response>): (run: TitleRun)
    decreases |o|
  {
    if o == [] then TitleRun(None, acc)
    else match o[0]
      case Failure => TitleRun(None, acc)
      case Page(titles, after) =>
        if titles == [] then TitleRun(if acc == [] then None else Some(acc), acc)
        else
          var acc' := acc + Kept(titles);
          if after.None? then TitleRun(Some(acc'), acc')
          else Collect(acc', o[1..])
  }

  /** The cursor of each request the recursion issues, starting with
      `cursor`: a new request follows every response that continues the
      traversal, carrying that page's `after`. */
  function Cursors(cursor: Option<string>, o: seq<Response>): (cs: seq<Option<string>>)
    decreases |o|
  {
    if o != [] && Continues(o[0]) then [cursor] + Cursors(o[0].after, o[1..]) else [cursor]
  }

  /** The passed list followed by the non-empty titles of the first `k`
      responses. */
  function Gathered(acc: seq<string>, o: seq<Response>, k: nat): seq<string>
    requires k <= |o|
  {
    acc + Kept(Titles(o[..k]))
  }

  lemma GatheredStep(acc: seq<string>, o: seq<Response>, k: nat)
    requires 0 < k <= |o| && o[0].Page?
    ensures Gathered(acc, o, k) == Gathered(acc + Kept(o[0].titles), o[1..], k - 1)
  {
    assert o[..k] == [o[0]] + o[1..][..k - 1];
    assert Titles(o[..k]) == o[0].titles + Titles(o[1..][..k - 1]);
    KeptAppend(o[0].titles, Titles(o[1..][..k - 1]));
  }

  /** The requests of a traversal: with `k` the index of the response that
      stops it, `k + 1` requests are issued, the first with the given cursor
      and each later one with the cursor of the page before it. */
  lemma {:induction false} CursorsOutcome(cursor: Option<string>, o: seq<Response>)
    ensures var k := Stop(o);
            var cs := Cursors(cursor, o);
            && |cs| == k + 1 && cs[0] == cursor
            && (forall j :: 1 <= j <= k ==> cs[j] == o[j - 1].after)
    decreases |o|
  {
    var k := Stop(o);
    if k > 0 {
      var tail := o[1..];
      CursorsOutcome(o[0].after, tail);
      var cs := Cursors(cursor, o);
      var rest := Cursors(o[0].after, tail);
      assert cs == [cursor] + rest;
      forall j | 1 <= j <= k ensures cs[j] == o[j - 1].after {
        if j > 1 {
          assert cs[j] == rest[j - 1] && o[j - 1] == tail[j - 2];
        }
      }
    }
  }

  /** The return value of a traversal, read off the response `o[k]` that stops
      it, with `g` the passed list followed by the non-empty titles of the
      pages before it: a failure (or a used-up oracle) returns None and leaves
      `g` in the list; a page with no posts returns `g`, or None when `g` is
      empty; a last page returns `g` followed by its own non-empty titles. */
  lemma {:induction false} CollectOutcome(acc: seq<string>, o: seq<Response>)
    ensures var k := Stop(o);
            var run := Collect(acc, o);
            var g := Gathered(acc, o, k);
            && (k == |o| || o[k].Failure? ==> run.result == None && run.list == g)
            && (k < |o| && o[k].Page? && o[k].titles == [] ==>
                  run.list == g && run.result == (if g == [] then None else Some(g)))
            && (k < |o| && o[k].Page? && o[k].titles != [] ==>
                  o[k].after.None? && run.list == g + Kept(o[k].titles) && run.result == Some(run.list))
    decreases |o|
  {
    var k := Stop(o);
    if k == 0 {
      assert o[..0] == [];
    } else {
      var acc' := acc + Kept(o[0].titles);
      CollectOutcome(acc', o[1..]);
      GatheredStep(acc, o, k);
      assert Stop(o[1..]) == k - 1;
      assert Collect(acc, o) == Collect(acc', o[1..]);
      assert |o[1..]| == |o| - 1;
      if k < |o| {
        assert o[k] == o[1..][k - 1];
      }
    }
  }

  /** The stop index is the first non-continuing response. */
  lemma StopAt(o: seq<Response>, k: nat)
    requires k < |o| && !Continues(o[k])
    requires forall j :: 0 <= j < k ==> Continues(o[j])
    ensures Stop(o) == k
  {
  }

  /** A failure on any page returns None, even when earlier pages have already
      put titles in the list; the titles stay in the list object. */
  lemma FailureDiscardsTitles(acc: seq<string>, o: seq<Response>, k: nat)
    requires k < |o| && o[k].Failure?
    requires forall j :: 0 <= j < k ==> Continues(o[j])
    ensures Collect(acc, o).result == None
    ensures Collect(acc, o).list == Gathered(acc, o, k)
  {
    StopAt(o, k);
    CollectOutcome(acc, o);
  }

  /** A page with no posts ends the traversal: None if nothing has been
      collected, otherwise the collected list unchanged. */
  lemma EmptyPageEnds(acc: seq<string>, o: seq<Response>, k: nat)
    requires k < |o| && o[k].Page? && o[k].titles == []
    requires forall j :: 0 <= j < k ==> Continues(o[j])
    ensures var g := Gathered(acc, o, k);
            Collect(acc, o).result == (if g == [] then None else Some(g))
  {
    StopAt(o, k);
    CollectOutcome(acc, o);
  }

  /** A page without a next cursor is the last one fetched; its non-empty
      titles close the list that is returned. */
  lemma LastPageReturnsList(acc: seq<string>, cursor: Option<string>, o: seq<Response>, k: nat)
    requires k < |o| && o[k].Page? && o[k].titles != [] && o[k].after.None?
    requires forall j :: 0 <= j < k ==> Continues(o[j])
    ensures Collect(acc, o).result == Some(Gathered(acc, o, k + 1))
    ensures |Cursors(cursor, o)| == k + 1
  {
    StopAt(o, k);
    CollectOutcome(acc, o);
    CursorsOutcome(cursor, o);
    GatheredNext(acc, o, k);
  }

  lemma GatheredNext(acc: seq<string>, o: seq<Response>, k: nat)
    requires k < |o| && o[k].Page?
    ensures Gathered(acc, o, k + 1) == Gathered(acc, o, k) + Kept(o[k].titles)
  {
    var a := o[..k];
    assert o[..k + 1] == a + [o[k]];
    TitlesAppend(a, [o[k]]);
    assert [o[k]][1..] == [];
    assert Titles([o[k]]) == o[k].titles + [];
    assert o[k].titles + [] == o[k].titles;
    KeptAppend(Titles(a), o[k].titles);
    assert acc + (Kept(Titles(a)) + Kept(o[k].titles)) == acc + Kept(Titles(a)) + Kept(o[k].titles);
  }

  /** The list passed in is a prefix of the list object afterwards, and any
      list returned is that object's final contents. */
  lemma {:induction false} CollectExtends(acc: seq<string>, o: seq<Response>)
    ensures var run := Collect(acc, o);
            && acc <= run.list
            && (run.result.Some? ==> run.result.value == run.list)
    decreases |o|
  {
    if o != [] && o[0].Page? && o[0].titles != [] && o[0].after.Some? {
      var acc' := acc + Kept(o[0].titles);
      CollectExtends(acc', o[1..]);
    }
  }

  /** Titles keep their order across pages: pages ["a", "b"] (cursor "X") and
      ["c"] (no cursor) give ["a", "b", "c"], after two requests. */
  lemma CrossPageOrder()
    ensures var o := [Page(["a", "b"], Some("X")), Page(["c"], None)];
            Collect([], o).result == Some(["a", "b", "c"]) && Cursors(None, o) == [None, Some("X")]
  {
    var o := [Page(["a", "b"], Some("X")), Page(["c"], None)];
    LastPageReturnsList([], None, o, 1);
    assert o[..2] == o;
    assert o[1..] == [Page(["c"], None)];
    assert Titles(o[1..]) == ["c"] by {
      assert o[1..][1..] == [];
    }
    assert Titles(o) == ["a", "b", "c"];
    KeptNonEmpty(["a", "b", "c"]);
    assert Gathered([], o, 2) == ["a", "b", "c"];
    assert Cursors(Some("X"), o[1..]) == [Some("X")];
  }

  /** A failed second page loses the first page's "a": the call returns None,
      while "a" stays in the list object. */
  lemma LaterFailureReturnsNone()
    ensures Collect([], [Page(["a"], Some("X")), Failure]) == TitleRun(None, ["a"])
  {
    var o := [Page(["a"], Some("X")), Failure];
    assert Kept(["a"]) == ["a"] by { assert ["a"][..0] == []; }
    assert o[1..] == [Failure];
  }

  /** The shared default list: after a call that failed on its second page, a
      new top-level call whose only page is empty returns the earlier call's
      title instead of None. */
  lemma SharedDefaultLeaks()
    ensures var first := Collect([], [Page(["a"], Some("X")), Failure]);
            && first.result == None
            && Collect(first.list, [Page([], None)]).result == Some(["a"])
  {
    LaterFailureReturnsNone();
  }

  /** Posts whose titles are all missing still count as a page: with nothing
      collected before, the call returns an empty list rather than None. */
  lemma BlankTitlesReturnEmptyList()
    ensures Collect([], [Page([""], None)]).result == Some([])
  {
    assert Kept([""]) == [] by { assert [""][..0] == []; }
  }

  /** The `for post in posts` loop: append each non-empty title, in order. */
  method AppendTitles(list: seq<string>, titles: seq<string>) returns (list': seq<string>)
    ensures list' == list + Kept(titles)
  {
    list' := list;
    for j := 0 to |titles|
      invariant list' == list + Kept(titles[..j])
    {
      assert titles[..j + 1][..j] == titles[..j];
      if titles[j] != "" {
        list' := list' + [titles[j]];
      }
    }
    assert titles[..|titles|] == titles;
  }

  /** The requests and list updates of `recurse` for a valid subreddit `name`,
      one call per response as in the source's recursion: `list` holds the
      list object's contents on entry and `list'` on return. */
  method Fetch(name: string, list: seq<string>, cursor: Option<string>, oracle: seq<Response>)
    returns (result: Option<seq<string>>, list': seq<string>, requests: seq<Request>)
    ensures TitleRun(result, list') == Collect(list, oracle)
    ensures requests == RequestsFor(name, Cursors(cursor, oracle))
    decreases |oracle|
  {
    var request := RequestFor(name, cursor);
    if oracle == [] || oracle[0].Failure? {
      return None, list, [request];
    }
    var response := oracle[0];
    if response.titles == [] {
      result := if list == [] then None else Some(list);
      return result, list, [request];
    }
    var extended := AppendTitles(list, response.titles);
    if response.after.None? {
      return Some(extended), extended, [request];
    }
    var later;
    result, list', later := Fetch(name, extended, response.after, oracle[1..]);
    requests := [request] + later;
    assert ([cursor] + Cursors(response.after, oracle[1..]))[1..] == Cursors(response.after, oracle[1..]);
  }

  /** `recurse` for one top-level call. `hotList` is the list object passed in
      (the shared default when the caller omits it); `list` is that object's
      contents when the call returns; `requests` are the requests issued, in
      order. */
  method Recurse(subreddit: PyValue, hotList: seq<string>, after: Option<string>, oracle: seq<Response>)
    returns (result: Option<seq<string>>, list: seq<string>, requests: seq<Request>)
    ensures !IsSubreddit(subreddit) ==> result == None && list == hotList && requests == []
    ensures IsSubreddit(subreddit) ==>
              && TitleRun(result, list) == Collect(hotList, oracle)
              && requests == RequestsFor(subreddit.s, Cursors(after, oracle))
  {
    if !IsSubreddit(subreddit) {
      return None, hotList, [];
    }
    result, list, requests := Fetch(subreddit.s, hotList, after, oracle);
  }
}
