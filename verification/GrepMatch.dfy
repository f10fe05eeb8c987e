/** The regular expressions of grep: what they mean, and the backtracking matcher. */
module GrepMatch {

  /** One(c) stands for one character and Star(c) for any number of them, '.' for every character; Eol for
      the end of the text. */
  datatype Item = One(c: char) | Star(c: char) | Eol

  /** A pattern after a leading '^'. */
  function Parse(re: string): seq<Item> {
    if re == [] then []
    else if |re| >= 2 && re[1] == '*' then [Star(re[0])] + Parse(re[2..])
    else if re == "$" then [Eol]
    else [One(re[0])] + Parse(re[1..])
  }

  predicate Fits(c: char, x: char) { c == '.' || c == x }

  ghost predicate AllFit(c: char, w: string) {
    forall i :: 0 <= i < |w| ==> Fits(c, w[i])
  }

  /** The string s is in the language of the items; `last` says that it ends where the text ends. */
  ghost predicate InLanguage(items: seq<Item>, s: string, last: bool) {
    if items == [] then s == []
    else match items[0]
         case One(c) => |s| > 0 && Fits(c, s[0]) && InLanguage(items[1..], s[1..], last)
         case Star(c) => exists j :: 0 <= j <= |s| && AllFit(c, s[..j]) && InLanguage(items[1..], s[j..], last)
         case Eol => s == [] && last && InLanguage(items[1..], s, last)
  }

  /** Some beginning of the text is in the language. */
  ghost predicate MatchesAtStart(items: seq<Item>, text: string) {
    exists k :: 0 <= k <= |text| && InLanguage(items, text[..k], k == |text|)
  }

  /** The meaning of a pattern: '^' ties the match to the beginning of the text. */
  ghost predicate Matches(re: string, text: string) {
    if re != [] && re[0] == '^' then MatchesAtStart(Parse(re[1..]), text)
    else exists i :: 0 <= i <= |text| && MatchesAtStart(Parse(re), text[i..])
  }

  // ----- unfolding the meaning at the start of a text -----

  lemma EmptyMatches(text: string)
    ensures MatchesAtStart([], text)
  {
    assert InLanguage([], text[..0], 0 == |text|);
  }

  lemma EolMatches(text: string)
    ensures MatchesAtStart([Eol], text) <==> text == []
  {
    if text == [] {
      assert InLanguage([Eol], text[..0], 0 == |text|);
    }
  }

  lemma OneMatches(c: char, rest: seq<Item>, text: string)
    ensures MatchesAtStart([One(c)] + rest, text) <==> text != [] && Fits(c, text[0]) && MatchesAtStart(rest, text[1..])
  {
    var items := [One(c)] + rest;
    assert items[1..] == rest;
    if MatchesAtStart(items, text) {
      var k :| 0 <= k <= |text| && InLanguage(items, text[..k], k == |text|);
      assert text[..k][1..] == text[1..][..k - 1];
      assert InLanguage(rest, text[1..][..k - 1], k - 1 == |text[1..]|);
    }
    if text != [] && Fits(c, text[0]) && MatchesAtStart(rest, text[1..]) {
      var k :| 0 <= k <= |text[1..]| && InLanguage(rest, text[1..][..k], k == |text[1..]|);
      assert text[..k + 1][1..] == text[1..][..k];
      assert InLanguage(items, text[..k + 1], k + 1 == |text|);
    }
  }

  /** Some number of fitting characters, and a match of the rest after them. */
  ghost predicate StarFrom(c: char, rest: seq<Item>, text: string) {
    exists j :: 0 <= j <= |text| && AllFit(c, text[..j]) && MatchesAtStart(rest, text[j..])
  }

  lemma StarMatches(c: char, rest: seq<Item>, text: string)
    ensures MatchesAtStart([Star(c)] + rest, text) <==> StarFrom(c, rest, text)
  {
    var items := [Star(c)] + rest;
    assert items[1..] == rest;
    if MatchesAtStart(items, text) {
      var k :| 0 <= k <= |text| && InLanguage(items, text[..k], k == |text|);
      var s := text[..k];
      var j :| 0 <= j <= |s| && AllFit(c, s[..j]) && InLanguage(rest, s[j..], k == |text|);
      assert s[..j] == text[..j] && s[j..] == text[j..][..k - j];
      assert InLanguage(rest, text[j..][..k - j], k - j == |text[j..]|);
    }
    if StarFrom(c, rest, text) {
      var j :| 0 <= j <= |text| && AllFit(c, text[..j]) && MatchesAtStart(rest, text[j..]);
      var m :| 0 <= m <= |text[j..]| && InLanguage(rest, text[j..][..m], m == |text[j..]|);
      var s := text[..j + m];
      assert s[..j] == text[..j] && s[j..] == text[j..][..m];
      assert InLanguage(items, s, j + m == |text|);
    }
  }

  // ----- the matcher -----

  /** matchhere: does the text begin with a match? */
  method MatchHere(re: string, text: string) returns (r: bool)
    ensures r <==> MatchesAtStart(Parse(re), text)
    decreases |re|, 0
  {
    if re == [] {
      EmptyMatches(text);
      return true;
    }
    if |re| >= 2 && re[1] == '*' {
      StarMatches(re[0], Parse(re[2..]), text);
      r := MatchStar(re[0], re[2..], text);
      return;
    }
    if re[0] == '$' && |re| == 1 {
      EolMatches(text);
      return text == [];
    }
    OneMatches(re[0], Parse(re[1..]), text);
    if text != [] && (re[0] == '.' || re[0] == text[0]) {
      r := MatchHere(re[1..], text[1..]);
      return;
    }
    return false;
  }

  /** matchstar: does the text begin with some characters that fit c and then a match? */
  method MatchStar(c: char, re: string, text: string) returns (r: bool)
    ensures r <==> StarFrom(c, Parse(re), text)
    decreases |re|, 1
  {
    var i := 0;
    while true
      invariant 0 <= i <= |text| && AllFit(c, text[..i])
      invariant forall j :: 0 <= j < i ==> !MatchesAtStart(Parse(re), text[j..])
      decreases |text| - i
    {
      var here := MatchHere(re, text[i..]);
      if here {
        return true;
      }
      if i == |text| || !(text[i] == c || c == '.') {
        break;
      }
      i := i + 1;
    }
    forall j | 0 <= j <= |text| && AllFit(c, text[..j]) ensures j <= i {
      FitsUpTo(c, text, j, i);
    }
    return false;
  }

  lemma FitsUpTo(c: char, text: string, j: nat, i: nat)
    requires j <= |text| && AllFit(c, text[..j])
    ensures i < j ==> Fits(c, text[i])
  {
    if i < j {
      assert Fits(c, text[..j][i]);
    }
  }

  /** match: true exactly when the text satisfies the meaning of the pattern. */
  method Match(re: string, text: string) returns (r: bool)
    ensures r <==> Matches(re, text)
  {
    if re != [] && re[0] == '^' {
      r := MatchHere(re[1..], text);
      return;
    }
    var i := 0;
    while true
      invariant 0 <= i <= |text| && forall j :: 0 <= j < i ==> !MatchesAtStart(Parse(re), text[j..])
      decreases |text| - i
    {
      var here := MatchHere(re, text[i..]);
      if here {
        return true;
      }
      if i == |text| {
        break;
      }
      i := i + 1;
    }
    return false;
  }
}
