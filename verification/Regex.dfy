/** The regular-expression matcher of grep, with ^ . * and $.

    A pattern denotes a language of words, given without reference to the matcher: each item
    contributes one factor and a word belongs to the language when it is a concatenation of such
    factors.  The matcher's three routines are proved to decide that language.  */
module Regex {

  /** A C string: its terminating NUL is not part of the sequence. */
  type CString = s: string | '\0' !in s

  /** One character of the pattern, or a starred one. */
  datatype Item = One(c: char) | Many(c: char)

  /** What stands after an optional leading ^: the items, and whether a final $ follows. */
  datatype Body = Body(items: seq<Item>, eol: bool)

  /** s[i] as C reads it. */
  function At(s: CString, i: nat): char {
    if i < |s| then s[i] else '\0'
  }

  predicate Accepts(c: char, x: char) {
    c == '.' || c == x
  }

  predicate ItemLang(it: Item, w: string) {
    match it
    case One(c) => |w| == 1 && Accepts(c, w[0])
    case Many(c) => forall i :: 0 <= i < |w| ==> Accepts(c, w[i])
  }

  function Concat(parts: seq<string>): string {
    if parts == [] then [] else parts[0] + Concat(parts[1..])
  }

  ghost predicate Factors(items: seq<Item>, parts: seq<string>) {
    && |parts| == |items|
    && forall i :: 0 <= i < |items| ==> ItemLang(items[i], parts[i])
  }

  /** The language of a sequence of items. */
  ghost predicate InLang(items: seq<Item>, w: string) {
    exists parts :: Factors(items, parts) && Concat(parts) == w
  }

  /** The concrete syntax: `c*` binds two characters, a `$` that ends the pattern is an anchor,
      anything else stands for itself (or for any character, when it is a dot). */
  function Parse(re: CString): Body {
    if re == [] then Body([], false)
    else if At(re, 1) == '*' then
      var rest := Parse(re[2..]);
      rest.(items := [Many(re[0])] + rest.items)
    else if re == "$" then Body([], true)
    else
      var rest := Parse(re[1..]);
      rest.(items := [One(re[0])] + rest.items)
  }

  /** Some prefix of the text is in the language; all of it, if the body ends with the anchor. */
  ghost predicate PrefixMatch(b: Body, text: string) {
    exists j :: 0 <= j <= |text| && InLang(b.items, text[..j]) && (b.eol ==> j == |text|)
  }

  /** What the whole pattern says about a line of text. */
  ghost predicate LineMatch(re: CString, text: string) {
    if At(re, 0) == '^' then PrefixMatch(Parse(re[1..]), text)
    else exists i :: 0 <= i <= |text| && PrefixMatch(Parse(re), text[i..])
  }

  lemma LangNil(w: string)
    ensures InLang([], w) <==> w == []
  {
    if w == [] {
      var parts: seq<string> := [];
      assert Factors([], parts) && Concat(parts) == w;
    }
  }

  /** A word of a non-empty pattern splits after the first item's factor, and conversely. */
  lemma LangCons(it: Item, rest: seq<Item>, w: string)
    ensures InLang([it] + rest, w)
       <==> exists k :: 0 <= k <= |w| && ItemLang(it, w[..k]) && InLang(rest, w[k..])
  {
    var items := [it] + rest;
    if InLang(items, w) {
      var parts :| Factors(items, parts) && Concat(parts) == w;
      var k := |parts[0]|;
      assert ItemLang(items[0], parts[0]);
      assert w[..k] == parts[0] && w[k..] == Concat(parts[1..]);
      assert Factors(rest, parts[1..]) by {
        forall i | 0 <= i < |rest| ensures ItemLang(rest[i], parts[1..][i]) {
          assert ItemLang(items[i + 1], parts[i + 1]);
        }
      }
    }
    if k :| 0 <= k <= |w| && ItemLang(it, w[..k]) && InLang(rest, w[k..]) {
      var tail :| Factors(rest, tail) && Concat(tail) == w[k..];
      var parts := [w[..k]] + tail;
      assert parts[1..] == tail;
      assert Concat(parts) == w[..k] + w[k..] == w;
      assert Factors(items, parts);
    }
  }

  /** Matching an item and then the rest, in terms of the text that is left. */
  lemma PrefixCons(it: Item, rest: Body, text: string)
    ensures PrefixMatch(rest.(items := [it] + rest.items), text)
       <==> exists k :: 0 <= k <= |text| && ItemLang(it, text[..k]) && PrefixMatch(rest, text[k..])
  {
    var b := rest.(items := [it] + rest.items);
    if PrefixMatch(b, text) {
      var j :| 0 <= j <= |text| && InLang(b.items, text[..j]) && (b.eol ==> j == |text|);
      LangCons(it, rest.items, text[..j]);
      var k :| 0 <= k <= j && ItemLang(it, text[..j][..k]) && InLang(rest.items, text[..j][k..]);
      assert text[..j][..k] == text[..k] && text[..j][k..] == text[k..][..j - k];
      assert PrefixMatch(rest, text[k..]);
    }
    if k :| 0 <= k <= |text| && ItemLang(it, text[..k]) && PrefixMatch(rest, text[k..]) {
      var i :| 0 <= i <= |text[k..]| && InLang(rest.items, text[k..][..i])
            && (rest.eol ==> i == |text[k..]|);
      var w := text[..k + i];
      assert w[..k] == text[..k] && w[k..] == text[k..][..i];
      LangCons(it, rest.items, w);
      assert InLang(b.items, w);
    }
  }

  lemma PrefixNil(eol: bool, text: string)
    ensures PrefixMatch(Body([], eol), text) <==> (eol ==> text == [])
  {
    forall j | 0 <= j <= |text| ensures InLang([], text[..j]) <==> j == 0 {
      LangNil(text[..j]);
    }
    if eol ==> text == [] {
      assert InLang([], text[..0]);
    }
  }

  /** grep's match: try every suffix, or only the whole text under ^. */
  method Match(re: CString, text: CString) returns (r: bool)
    ensures r <==> LineMatch(re, text)
  {
    if At(re, 0) == '^' {
      r := MatchHere(re[1..], text);
      return;
    }
    var i := 0;
    while true
      invariant 0 <= i <= |text|
      invariant forall k :: 0 <= k < i ==> !PrefixMatch(Parse(re), text[k..])
      decreases |text| - i
    {
      r := MatchHere(re, text[i..]);
      if r {
        return;
      }
      if At(text, i) == '\0' {
        assert i == |text|;
        return false;
      }
      i := i + 1;
    }
  }

  /** Search for re at the beginning of the text. */
  method MatchHere(re: CString, text: CString) returns (r: bool)
    ensures r <==> PrefixMatch(Parse(re), text)
    decreases |re|, |text|, 0
  {
    if At(re, 0) == '\0' {
      PrefixNil(false, text);
      return true;
    }
    if At(re, 1) == '*' {
      r := MatchStar(re[0], re[2..], text);
      return;
    }
    if re[0] == '$' && At(re, 1) == '\0' {
      assert re == "$";
      PrefixNil(true, text);
      return At(text, 0) == '\0';
    }
    PrefixCons(One(re[0]), Parse(re[1..]), text);
    if At(text, 0) != '\0' && (re[0] == '.' || re[0] == At(text, 0)) {
      r := MatchHere(re[1..], text[1..]);
      assert ItemLang(One(re[0]), text[..1]);
    } else {
      r := false;
    }
  }

  /** Search for c*re at the beginning of the text. */
  method MatchStar(c: char, re: CString, text: CString) returns (r: bool)
    ensures r <==> PrefixMatch(Body([Many(c)] + Parse(re).items, Parse(re).eol), text)
    decreases |re| + 1, |text|, 1
  {
    PrefixCons(Many(c), Parse(re), text);
    var i := 0;
    while true
      invariant 0 <= i <= |text|
      invariant ItemLang(Many(c), text[..i])
      invariant forall k :: 0 <= k < i ==> !PrefixMatch(Parse(re), text[k..])
      decreases |text| - i
    {
      r := MatchHere(re, text[i..]);
      if r {
        return;
      }
      if !(At(text, i) != '\0' && (text[i] == c || c == '.')) {
        forall k | i < k <= |text| ensures !ItemLang(Many(c), text[..k]) {
          assert !Accepts(c, text[..k][i]);
        }
        return false;
      }
      i := i + 1;
    }
  }
}
