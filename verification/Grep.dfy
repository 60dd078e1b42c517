/** grep.c's regular expression matcher (chapter 9 of The Practice of Programming), against the language a
    pattern denotes. */
module Grep {
  import opened Common

  /** s[i] as C reads it: the terminator is part of the string. */
  function CharAt(s: CString, i: nat): char
    requires i <= |s|
  {
    if i < |s| then s[i] else NUL
  }

  // ---- What a pattern means ----

  datatype Item = One(c: char) | Many(c: char)

  /** `toEnd` says that the pattern ends in a '$' that stands for the end of the text. */
  datatype Regex = Regex(items: seq<Item>, toEnd: bool)

  ghost predicate Fits(c: char, x: char) {
    c == '.' || x == c
  }

  ghost predicate AllFit(c: char, w: string) {
    forall i :: 0 <= i < |w| ==> Fits(c, w[i])
  }

  ghost predicate InItem(it: Item, w: string) {
    match it
    case One(c) => |w| == 1 && Fits(c, w[0])
    case Many(c) => AllFit(c, w)
  }

  /** w starts with k characters of the first item's language and goes on in the language of the others. */
  ghost predicate SplitsAt(items: seq<Item>, w: string, k: nat)
    requires |items| > 0
    decreases |items|, 0
  {
    k <= |w| && InItem(items[0], w[..k]) && InLang(items[1..], w[k..])
  }

  /** The language of a sequence of items: concatenations of words of the items' languages. */
  ghost predicate InLang(items: seq<Item>, w: string)
    decreases |items|, 1
  {
    if items == [] then w == [] else exists k: nat :: SplitsAt(items, w, k)
  }

  /** Some prefix of the text is in the language, the whole text if the pattern asks for its end. */
  ghost predicate PrefixMatches(r: Regex, text: string, n: nat) {
    n <= |text| && InLang(r.items, text[..n]) && (r.toEnd ==> n == |text|)
  }

  ghost predicate MatchesHere(r: Regex, text: string) {
    exists n: nat :: PrefixMatches(r, text, n)
  }

  ghost predicate MatchesFrom(r: Regex, text: string, j: nat) {
    j <= |text| && MatchesHere(r, text[j..])
  }

  ghost predicate MatchesSomewhere(r: Regex, text: string) {
    exists j: nat :: MatchesFrom(r, text, j)
  }

  /** How a pattern is read: a character with '*' behind it, a last '$', or a character by itself. */
  ghost function Read(re: CString): Regex
    decreases |re|
  {
    if re == [] then Regex([], false)
    else if |re| >= 2 && re[1] == '*' then var r := Read(re[2..]); Regex([Many(re[0])] + r.items, r.toEnd)
    else if re == "$" then Regex([], true)
    else var r := Read(re[1..]); Regex([One(re[0])] + r.items, r.toEnd)
  }

  // ---- How the language unfolds ----

  lemma OneMatches(c: char, r: Regex, text: string)
    ensures
      MatchesHere(Regex([One(c)] + r.items, r.toEnd), text)
      <==> |text| > 0 && Fits(c, text[0]) && MatchesHere(r, text[1..])
  {
    var r' := Regex([One(c)] + r.items, r.toEnd);
    assert r'.items[1..] == r.items;
    if MatchesHere(r', text) {
      var n: nat :| PrefixMatches(r', text, n);
      assert InLang(r'.items, text[..n]) && r'.items != [];
      var k: nat :| SplitsAt(r'.items, text[..n], k);
      assert text[..n][..k][0] == text[0] && text[..n][k..] == text[1..][..n - 1];
      assert PrefixMatches(r, text[1..], n - 1);
    }
    if |text| > 0 && Fits(c, text[0]) && MatchesHere(r, text[1..]) {
      var n: nat :| PrefixMatches(r, text[1..], n);
      assert text[..n + 1][1..] == text[1..][..n];
      assert SplitsAt(r'.items, text[..n + 1], 1);
      assert PrefixMatches(r', text, n + 1);
    }
  }

  /** The text goes on from k in r, and the k characters before fit c. */
  ghost predicate StarAt(c: char, r: Regex, text: string, k: nat) {
    k <= |text| && AllFit(c, text[..k]) && MatchesHere(r, text[k..])
  }

  ghost predicate StarMatches(c: char, r: Regex, text: string) {
    exists k: nat :: StarAt(c, r, text, k)
  }

  lemma ManyMatches(c: char, r: Regex, text: string)
    ensures MatchesHere(Regex([Many(c)] + r.items, r.toEnd), text) <==> StarMatches(c, r, text)
  {
    var r' := Regex([Many(c)] + r.items, r.toEnd);
    assert r'.items[1..] == r.items;
    if MatchesHere(r', text) {
      var n: nat :| PrefixMatches(r', text, n);
      assert InLang(r'.items, text[..n]) && r'.items != [];
      var k: nat :| SplitsAt(r'.items, text[..n], k);
      assert text[..n][..k] == text[..k] && text[..n][k..] == text[k..][..n - k];
      assert PrefixMatches(r, text[k..], n - k);
      assert StarAt(c, r, text, k);
    }
    if StarMatches(c, r, text) {
      var k: nat :| StarAt(c, r, text, k);
      var n: nat :| PrefixMatches(r, text[k..], n);
      assert text[..n + k][..k] == text[..k] && text[..n + k][k..] == text[k..][..n];
      assert SplitsAt(r'.items, text[..n + k], k);
      assert PrefixMatches(r', text, n + k);
    }
  }

  lemma AllFitCons(c: char, x: char, w: string)
    ensures AllFit(c, [x] + w) <==> Fits(c, x) && AllFit(c, w)
  {
    assert ([x] + w)[0] == x && ([x] + w)[1..] == w;
    if AllFit(c, [x] + w) {
      forall i | 0 <= i < |w|
        ensures Fits(c, w[i])
      {
        assert w[i] == ([x] + w)[i + 1];
      }
    }
  }

  /** Either the star is done here, or it takes one more character. */
  lemma StarUnfolds(c: char, r: Regex, text: string)
    ensures StarMatches(c, r, text) <==>
            MatchesHere(r, text) || (|text| > 0 && Fits(c, text[0]) && StarMatches(c, r, text[1..]))
  {
    assert text[0..] == text;
    if StarMatches(c, r, text) {
      var k: nat :| StarAt(c, r, text, k);
      if k > 0 {
        assert text[..k] == [text[0]] + text[1..][..k - 1] && text[1..][k - 1..] == text[k..];
        AllFitCons(c, text[0], text[1..][..k - 1]);
        assert StarAt(c, r, text[1..], k - 1);
      }
    }
    if MatchesHere(r, text) { assert StarAt(c, r, text, 0); }
    if |text| > 0 && Fits(c, text[0]) && StarMatches(c, r, text[1..]) {
      var k: nat :| StarAt(c, r, text[1..], k);
      assert text[..k + 1] == [text[0]] + text[1..][..k] && text[k + 1..] == text[1..][k..];
      AllFitCons(c, text[0], text[1..][..k]);
      assert StarAt(c, r, text, k + 1);
    }
  }

  lemma EmptyMatches(text: string)
    ensures MatchesHere(Regex([], false), text)
    ensures MatchesHere(Regex([], true), text) <==> text == []
  {
    assert PrefixMatches(Regex([], false), text, 0);
    if text == [] { assert PrefixMatches(Regex([], true), text, 0); }
  }

  lemma SomewhereUnfolds(r: Regex, text: string)
    ensures MatchesSomewhere(r, text) <==>
            MatchesHere(r, text) || (|text| > 0 && MatchesSomewhere(r, text[1..]))
  {
    assert text[0..] == text;
    if MatchesHere(r, text) { assert MatchesFrom(r, text, 0); }
    if |text| > 0 && MatchesSomewhere(r, text[1..]) {
      var j: nat :| MatchesFrom(r, text[1..], j);
      assert text[1..][j..] == text[j + 1..];
      assert MatchesFrom(r, text, j + 1);
    }
    if MatchesSomewhere(r, text) {
      var j: nat :| MatchesFrom(r, text, j);
      if j > 0 {
        assert text[1..][j - 1..] == text[j..];
        assert MatchesFrom(r, text[1..], j - 1);
      }
    }
  }

  // ---- The program ----

  method MatchHere(re: CString, text: CString) returns (found: bool)
    ensures found <==> MatchesHere(Read(re), text)
    decreases |re|, 0
  {
    if CharAt(re, 0) == NUL {
      EmptyMatches(text);
      return true;
    }
    if CharAt(re, 1) == '*' {
      ManyMatches(re[0], Read(re[2..]), text);
      found := MatchStar(re[0], re[2..], text);
      return;
    }
    if re[0] == '$' && CharAt(re, 1) == NUL {
      EmptyMatches(text);
      return CharAt(text, 0) == NUL;
    }
    OneMatches(re[0], Read(re[1..]), text);
    if CharAt(text, 0) != NUL && (re[0] == '.' || re[0] == CharAt(text, 0)) {
      found := MatchHere(re[1..], text[1..]);
      return;
    }
    return false;
  }

  method Match(re: CString, text: CString) returns (found: bool)
    ensures found <==> if |re| > 0 && re[0] == '^' then MatchesHere(Read(re[1..]), text)
                       else MatchesSomewhere(Read(re), text)
  {
    if CharAt(re, 0) == '^' {
      found := MatchHere(re[1..], text);
      return;
    }
    var t := text;
    while true
      invariant MatchesSomewhere(Read(re), text) <==> MatchesSomewhere(Read(re), t)
      decreases |t|
    {
      SomewhereUnfolds(Read(re), t);
      var b := MatchHere(re, t);
      if b {
        return true;
      }
      if CharAt(t, 0) == NUL {
        return false;
      }
      t := t[1..];
    }
  }

  method MatchStar(c: char, re: CString, text: CString) returns (found: bool)
    ensures found <==> StarMatches(c, Read(re), text)
    decreases |re|, 1
  {
    var t := text;
    while true
      invariant StarMatches(c, Read(re), text) <==> StarMatches(c, Read(re), t)
      decreases |t|
    {
      StarUnfolds(c, Read(re), t);
      var b := MatchHere(re, t);
      if b {
        return true;
      }
      if !(CharAt(t, 0) != NUL && (CharAt(t, 0) == c || c == '.')) {
        return false;
      }
      t := t[1..];
    }
  }
}
