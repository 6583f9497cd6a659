/** The string operations keyword counting relies on: `str.lower()`,
    `str.split()` with no separator, and `list.count`. */
module Text {

  /** Python's `str.isspace()` set, which is what `str.split()` splits on. */
  predicate IsSpace(c: char) {
    c == ' ' || ('\t' <= c <= '\r') || ('\U{1c}' <= c <= '\U{1f}') ||
    c == '\U{85}' || c == '\U{a0}' || c == '\U{1680}' || ('\U{2000}' <= c <= '\U{200a}') ||
    c == '\U{2028}' || c == '\U{2029}' || c == '\U{202f}' || c == '\U{205f}' || c == '\U{3000}'
  }

  predicate NoSpace(s: string) {
    forall i :: 0 <= i < |s| ==> !IsSpace(s[i])
  }

  function LowerChar(c: char): char {
    if 'A' <= c <= 'Z' then (c as int - 'A' as int + 'a' as int) as char else c
  }

  /** `str.lower()`, folding the ASCII letters only. */
  function Lower(s: string): string
  {
    if s == [] then [] else [LowerChar(s[0])] + Lower(s[1..])
  }

  /** Folding maps each character on its own, and leaves no ASCII capital
      behind. */
  lemma {:induction false} LowerChars(s: string)
    ensures |Lower(s)| == |s|
    ensures forall i :: 0 <= i < |s| ==> Lower(s)[i] == LowerChar(s[i])
    ensures forall i :: 0 <= i < |s| ==> !('A' <= Lower(s)[i] <= 'Z')
  {
    if s != [] {
      LowerChars(s[1..]);
      assert forall i :: 1 <= i < |s| ==> Lower(s)[i] == Lower(s[1..])[i - 1] && s[i] == s[1..][i - 1];
    }
  }

  /** Folding twice is folding once. */
  lemma LowerIdempotent(s: string)
    ensures Lower(Lower(s)) == Lower(s)
  {
    LowerChars(s);
    LowerChars(Lower(s));
  }

  /** Folding keeps whitespace where it was, so it commutes with splitting
      character classes. */
  lemma LowerKeepsSpaces(s: string)
    ensures |Lower(s)| == |s| && forall i :: 0 <= i < |s| ==> (IsSpace(Lower(s)[i]) <==> IsSpace(s[i]))
  {
    LowerChars(s);
  }

  /** The suffix of `s` left after dropping its leading whitespace. */
  function SkipSpace(s: string): (r: string)
    ensures |r| <= |s|
    ensures r == [] || !IsSpace(r[0])
  {
    if s != [] && IsSpace(s[0]) then SkipSpace(s[1..]) else s
  }

  /** What `SkipSpace` drops is a run of whitespace, and what it keeps is the
      rest of `s`. */
  lemma {:induction false} SkipSpaceSkips(s: string)
    ensures var r := SkipSpace(s);
            r == s[|s| - |r|..] && forall i :: 0 <= i < |s| - |r| ==> IsSpace(s[i])
  {
    if s != [] && IsSpace(s[0]) {
      SkipSpaceSkips(s[1..]);
      assert forall i :: 1 <= i < |s| ==> s[i] == s[1..][i - 1];
    }
  }

  /** The length of the longest whitespace-free prefix of `s`. */
  function WordLen(s: string): (n: nat)
    ensures n <= |s|
    ensures n < |s| ==> IsSpace(s[n])
    ensures s != [] && !IsSpace(s[0]) ==> n > 0
  {
    if s == [] || IsSpace(s[0]) then 0 else WordLen(s[1..]) + 1
  }

  /** The prefix `WordLen` measures holds no whitespace. */
  lemma {:induction false} WordLenNoSpace(s: string)
    ensures NoSpace(s[..WordLen(s)])
  {
    if s != [] && !IsSpace(s[0]) {
      var m := WordLen(s[1..]);
      WordLenNoSpace(s[1..]);
      assert s[..m + 1] == [s[0]] + s[1..][..m];
    }
  }

  /** `str.split()` with no separator: the maximal runs of non-whitespace
      characters, in order. */
  function Split(s: string): seq<string>
    decreases |s|
  {
    var t := SkipSpace(s);
    if t == [] then []
    else
      var n := WordLen(t);
      [t[..n]] + Split(t[n..])
  }

  /** Splitting never yields an empty token or one holding whitespace. */
  lemma {:induction false} SplitTokens(s: string)
    ensures AreWords(Split(s))
    decreases |s|
  {
    var t := SkipSpace(s);
    if t != [] {
      var n := WordLen(t);
      WordLenNoSpace(t);
      SplitTokens(t[n..]);
      assert Split(s)[1..] == Split(t[n..]);
    }
  }

  /** The words joined by single spaces: the inverse `Split` is checked
      against. */
  function JoinSpaced(words: seq<string>): string
  {
    if words == [] then []
    else if |words| == 1 then words[0]
    else words[0] + " " + JoinSpaced(words[1..])
  }

  lemma {:induction false} SplitLeadingSpace(c: char, s: string)
    requires IsSpace(c)
    ensures Split([c] + s) == Split(s)
  {
    assert ([c] + s)[1..] == s;
  }

  lemma {:induction false} WordLenOfWord(w: string, rest: string)
    requires NoSpace(w)
    requires rest == [] || IsSpace(rest[0])
    ensures WordLen(w + rest) == |w|
    decreases |w|
  {
    if w != [] {
      assert (w + rest)[1..] == w[1..] + rest;
      WordLenOfWord(w[1..], rest);
    } else {
      assert w + rest == rest;
    }
  }

  /** A whole word followed by whitespace (or nothing) is split off as one
      token. */
  lemma {:induction false} SplitWordThen(w: string, rest: string)
    requires w != [] && NoSpace(w)
    requires rest == [] || IsSpace(rest[0])
    ensures Split(w + rest) == [w] + Split(rest)
  {
    var s := w + rest;
    assert SkipSpace(s) == s;
    WordLenOfWord(w, rest);
    assert s[..|w|] == w;
    assert s[|w|..] == rest;
  }

  /** Every word is non-empty and free of whitespace: what `Split` yields. */
  predicate AreWords(words: seq<string>) {
    words == [] || (words[0] != [] && NoSpace(words[0]) && AreWords(words[1..]))
  }

  /** Splitting undoes joining with single spaces, for words that are
      non-empty and free of whitespace. */
  lemma {:induction false} SplitJoinSpaced(words: seq<string>)
    requires AreWords(words)
    ensures Split(JoinSpaced(words)) == words
  {
    if |words| == 1 {
      SplitWordThen(words[0], []);
      assert words[0] + [] == words[0];
    } else if |words| > 1 {
      SplitWordSpace(words[0], JoinSpaced(words[1..]));
      SplitJoinSpaced(words[1..]);
      assert words == [words[0]] + words[1..];
    }
  }

  lemma {:induction false} SplitWordSpace(w: string, tail: string)
    requires w != [] && NoSpace(w)
    ensures Split(w + " " + tail) == [w] + Split(tail)
  {
    assert w + " " + tail == w + ([' '] + tail);
    SplitWordThen(w, [' '] + tail);
    SplitLeadingSpace(' ', tail);
  }

  /** Each word folded by `Lower`. */
  function LowerAll(words: seq<string>): (r: seq<string>)
    ensures |r| == |words|
  {
    if words == [] then [] else [Lower(words[0])] + LowerAll(words[1..])
  }

  /** Folding a concatenation folds each part. */
  lemma {:induction false} LowerAppend(a: string, b: string)
    ensures Lower(a + b) == Lower(a) + Lower(b)
  {
    if a == [] {
      assert a + b == b;
    } else {
      assert (a + b)[1..] == a[1..] + b;
      LowerAppend(a[1..], b);
    }
  }

  /** Folding words joined by spaces is joining the folded words. */
  lemma {:induction false} LowerJoinSpaced(words: seq<string>)
    ensures Lower(JoinSpaced(words)) == JoinSpaced(LowerAll(words))
  {
    if |words| > 1 {
      LowerJoinSpaced(words[1..]);
      LowerAppend(words[0] + " ", JoinSpaced(words[1..]));
      LowerAppend(words[0], " ");
    }
  }

  /** Folding keeps words non-empty and free of whitespace. */
  lemma {:induction false} LowerAllWords(words: seq<string>)
    requires AreWords(words)
    ensures AreWords(LowerAll(words))
  {
    if words != [] {
      LowerKeepsSpaces(words[0]);
      LowerAllWords(words[1..]);
    }
  }

  /** The tokens of a title made of words joined by single spaces are its
      words, folded. */
  lemma SplitLowerJoined(words: seq<string>)
    requires AreWords(words)
    ensures Split(Lower(JoinSpaced(words))) == LowerAll(words)
  {
    LowerJoinSpaced(words);
    LowerAllWords(words);
    SplitJoinSpaced(LowerAll(words));
  }

  /** `list.count(w)`: how many entries of `words` equal `w`. */
  function Count(words: seq<string>, w: string): (n: nat)
    ensures n <= |words|
    ensures n > 0 <==> w in words
  {
    if words == [] then 0
    else (if words[0] == w then 1 else 0) + Count(words[1..], w)
  }

  /** `list.count(w)` is the number of occurrences of `w`: its multiplicity
      in the multiset of the list's entries. */
  lemma {:induction false} CountIsMultiset(words: seq<string>, w: string)
    ensures Count(words, w) == multiset(words)[w]
  {
    if words != [] {
      CountIsMultiset(words[1..], w);
      assert words == [words[0]] + words[1..];
    }
  }

  /** The number of tokens of `title.lower()` equal to `keyword` (already
      folded): one title's contribution to a keyword. */
  function TitleHits(title: string, keyword: string): nat
  {
    Count(Split(Lower(title)), keyword)
  }

  /** A missing or empty title never matches anything. */
  lemma EmptyTitleHitsNothing(keyword: string)
    ensures TitleHits("", keyword) == 0
  {
  }

}
