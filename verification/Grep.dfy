/** grep's regular expressions (Kernighan & Pike): the matcher against what a pattern
    means. */
module Grep {

  // ----------------------------------------------------------------- what a pattern means

  /** Does the pattern character c stand for the text character x? */
  predicate Matches(c: char, x: char) { c == '.' || c == x }

  /** The first n characters of text are all instances of c. */
  ghost predicate AllMatch(c: char, text: string, n: nat) {
    n <= |text| && forall i :: 0 <= i < n ==> Matches(c, text[i])
  }

  /** A pattern is a sequence of single characters and starred characters, with or without
      a final '$'. */
  datatype Item = One(c: char) | Many(c: char)
  datatype Pattern = Pattern(items: seq<Item>, toEnd: bool)

  function Items(re: string): (p: Pattern)
    decreases |re|
  {
    if re == "" then Pattern([], false)
    else if |re| >= 2 && re[1] == '*' then var p := Items(re[2..]); p.(items := [Many(re[0])] + p.items)
    else if re == "$" then Pattern([], true)
    else var p := Items(re[1..]); p.(items := [One(re[0])] + p.items)
  }

  /** w is a word of the language of the items. */
  ghost predicate InLang(items: seq<Item>, w: string)
    decreases |items|
  {
    if items == [] then w == ""
    else match items[0]
      case One(c) => w != "" && Matches(c, w[0]) && InLang(items[1..], w[1..])
      case Many(c) => exists n: nat :: AllMatch(c, w, n) && InLang(items[1..], w[n..])
  }

  /** text begins with a word of the pattern; with '$' it is one. */
  ghost predicate Begins(re: string, text: string) {
    var p := Items(re);
    exists m: nat :: m <= |text| && (p.toEnd ==> m == |text|) && InLang(p.items, text[..m])
  }

  /** A pattern is found in a text: at its start after '^', and else anywhere. */
  ghost predicate Found(re: string, text: string) {
    if re != "" && re[0] == '^' then Begins(re[1..], text)
    else exists k: nat :: k <= |text| && Begins(re, text[k..])
  }

  // ----------------------------------------------------- the same, from left to right

  ghost predicate Describes(re: string, text: string)
    decreases |re|
  {
    if re == "" then true
    else if |re| >= 2 && re[1] == '*' then exists n: nat :: AllMatch(re[0], text, n) && Describes(re[2..], text[n..])
    else if re == "$" then text == ""
    else text != "" && Matches(re[0], text[0]) && Describes(re[1..], text[1..])
  }

  lemma {:induction false} DescribesIs(re: string, text: string)
    ensures Describes(re, text) <==> Begins(re, text)
    decreases |re|
  {
    var p := Items(re);
    if re == "" {
      assert InLang(p.items, text[..0]);
    } else if |re| >= 2 && re[1] == '*' {
      StarIs(re, text);
    } else if re == "$" {
      assert text == "" ==> InLang(p.items, text[..0]);
    } else if text != "" && Matches(re[0], text[0]) {
      DescribesIs(re[1..], text[1..]);
      OneIs(re, text);
    }
  }

  lemma OneIs(re: string, text: string)
    requires re != "" && re != "$" && !(|re| >= 2 && re[1] == '*') && text != "" && Matches(re[0], text[0])
    ensures Begins(re, text) <==> Begins(re[1..], text[1..])
  {
    var p, p' := Items(re), Items(re[1..]);
    assert p.items[1..] == p'.items;
    if Begins(re, text) {
      var m: nat :| m <= |text| && (p.toEnd ==> m == |text|) && InLang(p.items, text[..m]);
      assert text[..m][1..] == text[1..][..m - 1];
    }
    if Begins(re[1..], text[1..]) {
      var m: nat :| m <= |text[1..]| && (p'.toEnd ==> m == |text[1..]|) && InLang(p'.items, text[1..][..m]);
      assert text[..m + 1][1..] == text[1..][..m];
      assert InLang(p.items, text[..m + 1]);
    }
  }

  lemma {:induction false} StarIs(re: string, text: string)
    requires |re| >= 2 && re[1] == '*'
    ensures Describes(re, text) <==> Begins(re, text)
    decreases |re|, 0
  {
    var p, p' := Items(re), Items(re[2..]);
    assert p.items[1..] == p'.items;
    if Describes(re, text) {
      var n: nat :| AllMatch(re[0], text, n) && Describes(re[2..], text[n..]);
      DescribesIs(re[2..], text[n..]);
      var m: nat :| m <= |text[n..]| && (p'.toEnd ==> m == |text[n..]|) && InLang(p'.items, text[n..][..m]);
      assert text[..n + m][n..] == text[n..][..m];
      assert AllMatch(re[0], text[..n + m], n);
      assert InLang(p.items, text[..n + m]);
    }
    if Begins(re, text) {
      var m: nat :| m <= |text| && (p.toEnd ==> m == |text|) && InLang(p.items, text[..m]);
      var n: nat :| AllMatch(re[0], text[..m], n) && InLang(p'.items, text[..m][n..]);
      assert text[..m][n..] == text[n..][..m - n];
      assert Begins(re[2..], text[n..]);
      DescribesIs(re[2..], text[n..]);
      assert AllMatch(re[0], text, n);
    }
  }

  // ------------------------------------------------------------------------ the matcher
  // Strings end where C's NUL is.

  /** matchhere. */
  method MatchHere(re: string, text: string) returns (r: bool)
    ensures r == Describes(re, text) && r == Begins(re, text)
    decreases |re|, |text|
  {
    DescribesIs(re, text);
    if re == "" { return true; }
    if |re| >= 2 && re[1] == '*' {
      r := MatchStar(re[0], re[2..], text);
      return;
    }
    if re[0] == '$' && |re| == 1 { return text == ""; }
    if text != "" && (re[0] == '.' || re[0] == text[0]) {
      r := MatchHere(re[1..], text[1..]);
      return;
    }
    return false;
  }

  /** matchstar: zero or more c, then the rest of the pattern. */
  method MatchStar(c: char, re: string, text: string) returns (r: bool)
    ensures r == exists n: nat :: AllMatch(c, text, n) && Describes(re, text[n..])
    decreases |re| + 1, |text|
  {
    var k := 0;
    while true
      invariant k <= |text| && AllMatch(c, text, k)
      invariant forall n: nat | n < k :: AllMatch(c, text, n) ==> !Describes(re, text[n..])
      decreases |text| - k
    {
      var here := MatchHere(re, text[k..]);
      if here { return true; }
      if !(k < |text| && (text[k] == c || c == '.')) { break; }
      k := k + 1;
    }
    StarStops(c, text, k);
    return false;
  }

  lemma StarStops(c: char, text: string, k: nat)
    requires k <= |text| && !(k < |text| && Matches(c, text[k]))
    ensures forall n: nat :: AllMatch(c, text, n) ==> n <= k
  {
  }

  /** match: true exactly when the pattern is found. */
  method Match(re: string, text: string) returns (r: bool)
    ensures r == Found(re, text)
  {
    if re != "" && re[0] == '^' {
      r := MatchHere(re[1..], text);
      return;
    }
    var k := 0;
    while true
      invariant k <= |text| && forall j: nat | j < k :: !Begins(re, text[j..])
      decreases |text| - k
    {
      var here := MatchHere(re, text[k..]);
      if here { return true; }
      if k == |text| { break; }
      k := k + 1;
    }
    return false;
  }
}
