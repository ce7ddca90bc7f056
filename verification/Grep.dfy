/** The regular-expression matcher of grep.c.  A C string is the sequence of its characters before
    the terminating NUL, so the end of the sequence stands for '\0'. */
module Grep {

  // ---------------------------------------------------------------- meaning of a pattern

  datatype Item = One(c: char) | Star(c: char)

  /** What a pattern denotes: a word of items, to be followed by the end of the text if `end`. */
  datatype Pattern = Pattern(items: seq<Item>, end: bool)

  ghost function Parse(re: string): Pattern
    decreases |re|
  {
    if re == "" then Pattern([], false)
    else if |re| >= 2 && re[1] == '*' then Prefix(Star(re[0]), Parse(re[2..]))
    else if re == "$" then Pattern([], true)
    else Prefix(One(re[0]), Parse(re[1..]))
  }

  ghost function Prefix(x: Item, p: Pattern): Pattern { Pattern([x] + p.items, p.end) }

  predicate Fits(c: char, x: char) { c == '.' || c == x }

  ghost predicate AllFit(c: char, w: string) { forall i :: 0 <= i < |w| ==> Fits(c, w[i]) }

  /** The word w is in the language of the items. */
  ghost predicate Lang(items: seq<Item>, w: string)
    decreases |items|
  {
    if items == [] then w == ""
    else match items[0]
      case One(c) => w != "" && Fits(c, w[0]) && Lang(items[1..], w[1..])
      case Star(c) => exists k :: 0 <= k <= |w| && AllFit(c, w[..k]) && Lang(items[1..], w[k..])
  }

  /** Some prefix of the text, the whole of it if the pattern is anchored at the end, is in the language. */
  ghost predicate Here(p: Pattern, text: string) {
    exists k :: 0 <= k <= |text| && Lang(p.items, text[..k]) && (p.end ==> k == |text|)
  }

  /** grep's promise: some substring matches, at the very start after a leading '^'. */
  ghost predicate Matches(re: string, text: string) {
    if re != "" && re[0] == '^' then Here(Parse(re[1..]), text)
    else exists i :: 0 <= i <= |text| && Here(Parse(re), text[i..])
  }

  // ---------------------------------------------------------------- one item at a time

  lemma HereNothing(text: string)
    ensures Here(Pattern([], false), text)
    ensures Here(Pattern([], true), text) <==> text == ""
  {
    assert Lang([], text[..0]);
    if text == "" { assert Lang([], text[..|text|]); }
  }

  lemma HereOne(c: char, p: Pattern, text: string)
    ensures Here(Prefix(One(c), p), text) <==> text != "" && Fits(c, text[0]) && Here(p, text[1..])
  {
    var q := Prefix(One(c), p);
    assert q.items[1..] == p.items;
    if Here(q, text) {
      var k :| 0 <= k <= |text| && Lang(q.items, text[..k]) && (q.end ==> k == |text|);
      assert text[..k][1..] == text[1..][..k - 1];
    }
    if text != "" && Fits(c, text[0]) && Here(p, text[1..]) {
      var k :| 0 <= k <= |text| - 1 && Lang(p.items, text[1..][..k]) && (p.end ==> k == |text| - 1);
      assert text[..k + 1][1..] == text[1..][..k];
      assert Lang(q.items, text[..k + 1]);
    }
  }

  lemma HereStar(c: char, p: Pattern, text: string)
    ensures Here(Prefix(Star(c), p), text) <==>
      exists k :: 0 <= k <= |text| && AllFit(c, text[..k]) && Here(p, text[k..])
  {
    var q := Prefix(Star(c), p);
    assert q.items[1..] == p.items;
    if Here(q, text) {
      var n :| 0 <= n <= |text| && Lang(q.items, text[..n]) && (q.end ==> n == |text|);
      var w := text[..n];
      var k :| 0 <= k <= |w| && AllFit(c, w[..k]) && Lang(p.items, w[k..]);
      assert w[..k] == text[..k] && w[k..] == text[k..][..n - k];
    }
    if k :| 0 <= k <= |text| && AllFit(c, text[..k]) && Here(p, text[k..]) {
      var m :| 0 <= m <= |text| - k && Lang(p.items, text[k..][..m]) && (p.end ==> m == |text| - k);
      var w := text[..k + m];
      assert w[..k] == text[..k] && w[k..] == text[k..][..m];
      assert Lang(q.items, w);
    }
  }

  // ---------------------------------------------------------------- the matcher

  method Match(re: string, text: string) returns (r: bool)
    ensures r <==> Matches(re, text)
  {
    if re != "" && re[0] == '^' {
      r := MatchHere(re[1..], text);
      return;
    }
    var i := 0;
    while true
      invariant 0 <= i <= |text| && forall j :: 0 <= j < i ==> !Here(Parse(re), text[j..])
      decreases |text| - i
    {
      var m := MatchHere(re, text[i..]);
      if m { return true; }
      if i == |text| { return false; }
      i := i + 1;
    }
  }

  method MatchHere(re: string, text: string) returns (r: bool)
    ensures r <==> Here(Parse(re), text)
    decreases |re|, 0
  {
    if re == "" {
      HereNothing(text);
      return true;
    }
    if |re| >= 2 && re[1] == '*' {
      r := MatchStar(re[0], re[2..], text);
      return;
    }
    if re[0] == '$' && |re| == 1 {
      HereNothing(text);
      return text == "";
    }
    HereOne(re[0], Parse(re[1..]), text);
    if text != "" && (re[0] == '.' || re[0] == text[0]) {
      r := MatchHere(re[1..], text[1..]);
      return;
    }
    return false;
  }

  method MatchStar(c: char, re: string, text: string) returns (r: bool)
    ensures r <==> Here(Prefix(Star(c), Parse(re)), text)
    decreases |re|, 1
  {
    HereStar(c, Parse(re), text);
    var i := 0;
    while true
      invariant 0 <= i <= |text| && AllFit(c, text[..i]) && forall j :: 0 <= j < i ==> !Here(Parse(re), text[j..])
      decreases |text| - i
    {
      var m := MatchHere(re, text[i..]);
      if m { return true; }
      if i == |text| || !(text[i] == c || c == '.') {
        assert forall k :: i < k <= |text| ==> !Fits(c, text[..k][i]);
        return false;
      }
      i := i + 1;
    }
  }
}
