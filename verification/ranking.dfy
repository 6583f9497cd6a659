/** The final report of the keyword tally: the tally's items ordered the way
    `sorted(word_count.items(), key=lambda x: (-x[1], x[0]))` orders them, and
    the `"word: count"` lines printed from them. */
module Ranking {

  datatype Entry = Entry(word: string, count: int)

  /** Python's `<` on `str`: lexicographic by code point, a proper prefix
      first. */
  predicate Less(a: string, b: string) {
    if a == [] then b != []
    else if b == [] then false
    else a[0] < b[0] || (a[0] == b[0] && Less(a[1..], b[1..]))
  }

  lemma {:induction false} LessIrreflexive(a: string)
    ensures !Less(a, a)
  {
    if a != [] {
      LessIrreflexive(a[1..]);
    }
  }

  lemma {:induction false} LessAsymmetric(a: string, b: string)
    ensures !(Less(a, b) && Less(b, a))
  {
    if a != [] && b != [] && a[0] == b[0] {
      LessAsymmetric(a[1..], b[1..]);
    }
  }

  lemma {:induction false} LessTransitive(a: string, b: string, c: string)
    requires Less(a, b) && Less(b, c)
    ensures Less(a, c)
  {
    if a != [] && a[0] == b[0] && b[0] == c[0] {
      LessTransitive(a[1..], b[1..], c[1..]);
    }
  }

  lemma {:induction false} LessTotal(a: string, b: string)
    requires a != b
    ensures Less(a, b) || Less(b, a)
  {
    if a != [] && b != [] && a[0] == b[0] {
      assert a == [a[0]] + a[1..] && b == [b[0]] + b[1..];
      LessTotal(a[1..], b[1..]);
    }
  }

  /** The sort key `(-count, word)`: larger counts first, ties by ascending
      word. */
  predicate Before(x: Entry, y: Entry) {
    x.count > y.count || (x.count == y.count && Less(x.word, y.word))
  }

  lemma BeforeAsymmetric()
    ensures forall x, y :: Before(x, y) ==> !Before(y, x)
  {
    forall x, y | Before(x, y) ensures !Before(y, x) {
      LessAsymmetric(x.word, y.word);
    }
  }

  lemma BeforeTransitive(x: Entry, y: Entry, z: Entry)
    requires Before(x, y) && Before(y, z)
    ensures Before(x, z)
  {
    if Less(x.word, y.word) && Less(y.word, z.word) {
      LessTransitive(x.word, y.word, z.word);
    }
  }

  lemma BeforeTotal(x: Entry, y: Entry)
    requires x.word != y.word
    ensures Before(x, y) || Before(y, x)
  {
    LessTotal(x.word, y.word);
  }

  /** `k` is the item of `m` that the sort puts first. */
  predicate IsFirst(k: string, m: map<string, int>)
    requires k in m
  {
    forall k' :: k' in m && k' != k ==> Before(Entry(k, m[k]), Entry(k', m[k']))
  }

  /** The words a report lists. */
  function Words(r: seq<Entry>): (ws: set<string>)
    ensures forall i :: 0 <= i < |r| ==> r[i].word in ws
  {
    if r == [] then {} else {r[0].word} + Words(r[1..])
  }

  lemma {:induction false} WordsIndex(r: seq<Entry>, w: string)
    requires w in Words(r)
    ensures exists i :: 0 <= i < |r| && r[i].word == w
  {
    if r[0].word != w {
      WordsIndex(r[1..], w);
      var i :| 0 <= i < |r[1..]| && r[1..][i].word == w;
      assert r[i + 1].word == w;
    }
  }

  /** Strictly increasing in sort-key order; in particular no word twice. */
  predicate Sorted(r: seq<Entry>) {
    forall i, j :: 0 <= i < j < |r| ==> Before(r[i], r[j])
  }

  /** `r` lists every item of `m` exactly once, in the order of the sort key. */
  predicate IsReportOf(r: seq<Entry>, m: map<string, int>) {
    && Sorted(r)
    && Words(r) == m.Keys
    && (forall i :: 0 <= i < |r| ==> r[i].word in m && m[r[i].word] == r[i].count)
  }

  /** Every non-empty tally has an item the sort puts first. */
  lemma {:induction false} FirstExists(m: map<string, int>)
    requires |m| > 0
    ensures exists k :: k in m && IsFirst(k, m)
    decreases |m|
  {
    var k0 :| k0 in m;
    var rest := m - {k0};
    assert |rest| == |m| - 1;
    var e0 := Entry(k0, m[k0]);
    if |rest| == 0 {
      assert rest.Keys == m.Keys - {k0};
      assert rest.Keys == {};
      assert m.Keys == {k0};
      assert IsFirst(k0, m);
    } else {
      FirstExists(rest);
      var k1 :| k1 in rest && IsFirst(k1, rest);
      var e1 := Entry(k1, m[k1]);
      BeforeTotal(e0, e1);
      if Before(e0, e1) {
        forall k' | k' in m && k' != k0
          ensures Before(e0, Entry(k', m[k']))
        {
          if k' != k1 {
            assert k' in rest && rest[k'] == m[k'] && rest[k1] == m[k1];
            assert Before(e1, Entry(k', m[k']));
            BeforeTransitive(e0, e1, Entry(k', m[k']));
          }
        }
        assert IsFirst(k0, m);
      } else {
        forall k' | k' in m && k' != k1
          ensures Before(e1, Entry(k', m[k']))
        {
          if k' != k0 {
            assert k' in rest && rest[k'] == m[k'] && rest[k1] == m[k1];
          }
        }
        assert IsFirst(k1, m);
      }
    }
  }

  /** Putting the first item in front of the report of the others gives the
      report of the whole tally. */
  lemma PrependFirst(k: string, m: map<string, int>, tail: seq<Entry>)
    requires k in m && IsFirst(k, m)
    requires IsReportOf(tail, m - {k})
    ensures IsReportOf([Entry(k, m[k])] + tail, m)
  {
    var r := [Entry(k, m[k])] + tail;
    assert r[1..] == tail;
    forall j | 0 < j < |r| ensures r[j].word in m && m[r[j].word] == r[j].count {
      assert r[j] == tail[j - 1];
    }
    forall i, j | 0 <= i < j < |r| ensures Before(r[i], r[j]) {
      assert r[j] == tail[j - 1];
      if i > 0 {
        assert r[i] == tail[i - 1];
      }
    }
    assert Words(r) == {k} + Words(tail);
  }

  /** The tally items in report order. */
  function Report(m: map<string, int>): (r: seq<Entry>)
    ensures IsReportOf(r, m)
    decreases |m|
  {
    if |m| == 0 then []
    else
      FirstExists(m);
      BeforeAsymmetric();
      var k :| k in m && IsFirst(k, m);
      var rest := m - {k};
      assert |rest| == |m| - 1;
      var tail := Report(rest);
      PrependFirst(k, m, tail);
      [Entry(k, m[k])] + tail
  }

  /** Only the empty report lists no words. */
  lemma WordsEmpty(r: seq<Entry>)
    ensures Words(r) == {} <==> r == []
  {
    if r != [] {
      assert r[0].word in Words(r);
    }
  }

  /** The report of a tally is determined by the tally: any two sequences that
      list its items in key order are the same sequence. */
  lemma {:induction false} ReportUnique(r1: seq<Entry>, r2: seq<Entry>, m: map<string, int>)
    requires IsReportOf(r1, m) && IsReportOf(r2, m)
    ensures r1 == r2
    decreases |m|
  {
    WordsEmpty(r1);
    WordsEmpty(r2);
    if m.Keys != {} {
      var k1, k2 := r1[0].word, r2[0].word;
      if k1 != k2 {
        WordsIndex(r1, k2);
        var j1 :| 0 <= j1 < |r1| && r1[j1].word == k2;
        WordsIndex(r2, k1);
        var j2 :| 0 <= j2 < |r2| && r2[j2].word == k1;
        assert Before(r1[0], r1[j1]) && Before(r2[0], r2[j2]);
        LessAsymmetric(k1, k2);
        assert false;
      }
      ReportTail(r1, m);
      ReportTail(r2, m);
      ReportUnique(r1[1..], r2[1..], m - {k1});
      assert r1 == [r1[0]] + r1[1..] && r2 == [r2[0]] + r2[1..];
    }
  }

  /** Dropping the first line of a report leaves the report of the rest. */
  lemma ReportTail(r: seq<Entry>, m: map<string, int>)
    requires IsReportOf(r, m) && r != []
    ensures IsReportOf(r[1..], m - {r[0].word})
  {
    var k := r[0].word;
    var t := r[1..];
    forall i | 0 <= i < |t| ensures t[i].word != k {
      assert Before(r[0], r[i + 1]);
      LessIrreflexive(k);
    }
    if k in Words(t) {
      WordsIndex(t, k);
    }
    assert Words(r) == {k} + Words(t);
  }

  /** Decimal digits of a non-negative integer, as `str()` writes them. */
  function NatDigits(n: nat): (s: string)
    ensures s != [] && forall i :: 0 <= i < |s| ==> '0' <= s[i] <= '9'
  {
    var d := ['0' + (n % 10) as char];
    if n < 10 then d else NatDigits(n / 10) + d
  }

  /** The number a string of decimal digits denotes, most significant digit
      first. */
  function DigitsValue(s: string): int
  {
    if s == [] then 0
    else DigitsValue(s[..|s| - 1]) * 10 + (s[|s| - 1] as int - '0' as int)
  }

  /** The digits are the decimal notation of `n`: they denote `n`, and only
      zero itself is written with a leading '0'. */
  lemma {:induction false} NatDigitsValue(n: nat)
    ensures DigitsValue(NatDigits(n)) == n
    ensures n > 0 ==> NatDigits(n)[0] != '0'
    ensures n == 0 ==> NatDigits(n) == "0"
    ensures |NatDigits(n)| > 1 ==> NatDigits(n)[0] != '0'
  {
    var s := NatDigits(n);
    var d := ['0' + (n % 10) as char];
    if n < 10 {
      assert s == d;
      assert s[..0] == [];
    } else {
      NatDigitsValue(n / 10);
      var p := NatDigits(n / 10);
      assert s == p + d;
      assert s[..|s| - 1] == p;
      assert s[0] == p[0];
    }
  }

  /** `str()` of an integer. */
  function IntText(n: int): string
  {
    if n < 0 then "-" + NatDigits(-n) else NatDigits(n)
  }

  /** One printed line, `"{}: {}".format(word, count)`. */
  function Line(e: Entry): string
  {
    e.word + ": " + IntText(e.count)
  }

  function Render(r: seq<Entry>): (lines: seq<string>)
    ensures |lines| == |r|
    ensures forall i :: 0 <= i < |r| ==> lines[i] == Line(r[i])
  {
    if r == [] then [] else [Line(r[0])] + Render(r[1..])
  }

  /** The worked ordering example: counts a=2, b=3, c=2 are reported as
      b, a, c. */
  lemma ReportExample()
    ensures Report(map["a" := 2, "b" := 3, "c" := 2]) == [Entry("b", 3), Entry("a", 2), Entry("c", 2)]
  {
    var m := map["a" := 2, "b" := 3, "c" := 2];
    var r := [Entry("b", 3), Entry("a", 2), Entry("c", 2)];
    assert Less("a", "c");
    assert Sorted(r);
    assert Words(r) == m.Keys by {
      assert Words(r) == {"b"} + ({"a"} + ({"c"} + {}));
    }
    assert IsReportOf(r, m);
    ReportUnique(Report(m), r, m);
  }

  /** ... and printed as "b: 3", "a: 2", "c: 2". */
  lemma RenderExample()
    ensures Render([Entry("b", 3), Entry("a", 2), Entry("c", 2)]) == ["b: 3", "a: 2", "c: 2"]
  {
    assert IntText(3) == "3" && IntText(2) == "2";
    assert Line(Entry("b", 3)) == "b: 3";
    assert Line(Entry("a", 2)) == "a: 2";
    assert Line(Entry("c", 2)) == "c: 2";
  }
}
