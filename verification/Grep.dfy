/** The regular expression matcher of xv6/grep.c: recursion and do-while loops over the text, and the
    language of a pattern said without either. */
module Grep {

  // ----- what a pattern means

  /** One character (any if '.'), any number of a character (any if '.'), or the end of the text. */
  datatype Item = One(c: char) | Star(c: char) | End

  /** The characters a pattern character stands for. */
  predicate Is(c: char, x: char) { c == '.' || c == x }

  function Items(re: string): seq<Item> {
    if re == "" then []
    else if |re| >= 2 && re[1] == '*' then [Star(re[0])] + Items(re[2..])
    else if re == "$" then [End]
    else [One(re[0])] + Items(re[1..])
  }

  predicate Accepts(it: Item, w: string) {
    match it
    case One(c) => |w| == 1 && Is(c, w[0])
    case Star(c) => forall k :: 0 <= k < |w| ==> Is(c, w[k])
    case End => w == ""
  }

  function Concat(parts: seq<string>): string {
    if parts == [] then "" else parts[0] + Concat(parts[1..])
  }

  /** `w` can be cut into pieces that the items accept one by one. */
  ghost predicate InLanguage(items: seq<Item>, w: string) {
    exists parts: seq<string> :: |parts| == |items| && Concat(parts) == w &&
                                 forall k :: 0 <= k < |parts| ==> Accepts(items[k], parts[k])
  }

  predicate AtEnd(items: seq<Item>) { items != [] && items[|items| - 1].End? }

  /** Some piece of the text is in the language of the pattern; '^' pins it to the start and a final '$'
      to the end. */
  ghost predicate Matches(re: string, text: string) {
    var anchored := re != "" && re[0] == '^';
    var items := Items(if anchored then re[1..] else re);
    exists i, j :: 0 <= i <= j <= |text| && InLanguage(items, text[i..j]) && (anchored ==> i == 0)
        && (AtEnd(items) ==> j == |text|)
  }

  // ----- the matcher as functions

  predicate MatchHere(re: string, text: string)
    decreases |re|, |text|, 0
  {
    if re == "" then true
    else if |re| >= 2 && re[1] == '*' then MatchStar(re[0], re[2..], text)
    else if re == "$" then text == ""
    else text != "" && (re[0] == '.' || re[0] == text[0]) && MatchHere(re[1..], text[1..])
  }

  predicate MatchStar(c: char, re: string, text: string)
    decreases |re|, |text|, 1
  {
    MatchHere(re, text) || (text != "" && (c == text[0] || c == '.') && MatchStar(c, re, text[1..]))
  }

  predicate MatchAny(re: string, text: string)
    decreases |text|
  {
    MatchHere(re, text) || (text != "" && MatchAny(re, text[1..]))
  }

  predicate Match(re: string, text: string) {
    if re != "" && re[0] == '^' then MatchHere(re[1..], text) else MatchAny(re, text)
  }

  // ----- the language, one item at a time

  ghost predicate Lang(items: seq<Item>, w: string) {
    if items == [] then w == ""
    else exists k :: 0 <= k <= |w| && Accepts(items[0], w[..k]) && Lang(items[1..], w[k..])
  }

  ghost predicate Cuts(items: seq<Item>, parts: seq<string>, w: string) {
    |parts| == |items| && Concat(parts) == w && forall k :: 0 <= k < |parts| ==> Accepts(items[k], parts[k])
  }

  lemma {:induction false} LangIsInLanguage(items: seq<Item>, w: string)
    ensures Lang(items, w) <==> InLanguage(items, w)
  {
    if Lang(items, w) {
      var parts := LangCuts(items, w);
    }
    if parts: seq<string> :|
      |parts| == |items| && Concat(parts) == w && forall k :: 0 <= k < |parts| ==> Accepts(items[k], parts[k])
    {
      CutsLang(items, parts, w);
    }
  }

  lemma {:induction false} LangCuts(items: seq<Item>, w: string) returns (parts: seq<string>)
    requires Lang(items, w)
    ensures Cuts(items, parts, w)
  {
    parts := [];
    if items != [] {
      var k :| 0 <= k <= |w| && Accepts(items[0], w[..k]) && Lang(items[1..], w[k..]);
      var rest := LangCuts(items[1..], w[k..]);
      parts := [w[..k]] + rest;
      assert parts[1..] == rest && w[..k] + w[k..] == w;
    }
  }

  lemma {:induction false} CutsLang(items: seq<Item>, parts: seq<string>, w: string)
    requires Cuts(items, parts, w)
    ensures Lang(items, w)
  {
    if items != [] {
      var k, rest := |parts[0]|, parts[1..];
      assert w[..k] == parts[0] && w[k..] == Concat(rest);
      CutsLang(items[1..], rest, w[k..]);
    }
  }

  /** The first j characters of the text are in the language, and all of them if the pattern ends in '$'. */
  ghost predicate Head(items: seq<Item>, text: string, j: nat) {
    j <= |text| && Lang(items, text[..j]) && (AtEnd(items) ==> j == |text|)
  }

  ghost predicate SomeHead(items: seq<Item>, text: string) {
    exists j: nat :: Head(items, text, j)
  }

  /** A head of a pattern is a piece for its first item followed by a head of the others. */
  lemma HeadSplit(it: Item, rest: seq<Item>, text: string)
    requires rest != [] || !it.End?
    ensures SomeHead([it] + rest, text) <==>
            exists k: nat :: k <= |text| && Accepts(it, text[..k]) && SomeHead(rest, text[k..])
  {
    var items := [it] + rest;
    assert items[1..] == rest;
    assert AtEnd(items) == AtEnd(rest);
    if SomeHead(items, text) {
      var j: nat :| Head(items, text, j);
      var w := text[..j];
      var k :| 0 <= k <= |w| && Accepts(items[0], w[..k]) && Lang(items[1..], w[k..]);
      assert w[..k] == text[..k] && w[k..] == text[k..][..j - k];
      assert Head(rest, text[k..], j - k);
    }
    if k: nat :| k <= |text| && Accepts(it, text[..k]) && SomeHead(rest, text[k..]) {
      var j: nat :| Head(rest, text[k..], j);
      var w := text[..k + j];
      assert w[..k] == text[..k] && w[k..] == text[k..][..j];
      assert Lang(items, w);
      assert Head(items, text, k + j);
    }
  }

  lemma StarAccepts(c: char, text: string, k: nat)
    requires 0 < k <= |text|
    ensures Accepts(Star(c), text[..k]) <==> Is(c, text[0]) && Accepts(Star(c), text[1..][..k - 1])
    ensures text[1..][k - 1..] == text[k..]
  {
    assert text[..k] == [text[0]] + text[1..][..k - 1];
    if Is(c, text[0]) && Accepts(Star(c), text[1..][..k - 1]) {
      var w := text[..k];
      forall i | 0 <= i < |w| ensures Is(c, w[i]) {
        if i > 0 { assert w[i] == text[1..][..k - 1][i - 1]; }
      }
    }
    if Accepts(Star(c), text[..k]) {
      var w := text[1..][..k - 1];
      forall i | 0 <= i < |w| ensures Is(c, w[i]) {
        assert w[i] == text[..k][i + 1];
      }
    }
  }

  lemma {:induction false} MatchStarCorrect(c: char, re: string, text: string)
    ensures MatchStar(c, re, text) <==>
            exists k: nat :: k <= |text| && Accepts(Star(c), text[..k]) && MatchHere(re, text[k..])
    decreases |text|
  {
    assert text[0..] == text && Accepts(Star(c), text[..0]);
    hide Accepts, MatchHere;
    if MatchHere(re, text) {
      assert MatchHere(re, text[0..]);
    } else if text != "" {
      MatchStarCorrect(c, re, text[1..]);
      var rest := text[1..];
      if k: nat :| Is(c, text[0]) && k <= |rest| && Accepts(Star(c), rest[..k]) && MatchHere(re, rest[k..]) {
        StarAccepts(c, text, k + 1);
        assert MatchHere(re, text[k + 1..]);
      }
      if k: nat :| k <= |text| && Accepts(Star(c), text[..k]) && MatchHere(re, text[k..]) {
        assert k > 0;
        StarAccepts(c, text, k);
        assert MatchHere(re, text[1..][k - 1..]);
      }
    }
  }

  /** matchhere finds a match at the start of the text exactly when there is one. */
  lemma {:induction false} MatchHereCorrect(re: string, text: string)
    ensures MatchHere(re, text) <==> SomeHead(Items(re), text)
    decreases |re|, |text|
  {
    if re == "" {
      assert Head([], text, 0);
    } else if |re| >= 2 && re[1] == '*' {
      MatchStarCorrect(re[0], re[2..], text);
      forall k: nat | k <= |text| ensures MatchHere(re[2..], text[k..]) <==> SomeHead(Items(re[2..]), text[k..]) {
        MatchHereCorrect(re[2..], text[k..]);
      }
      HeadSplit(Star(re[0]), Items(re[2..]), text);
    } else if re == "$" {
      DollarCorrect(text);
    } else {
      HeadSplit(One(re[0]), Items(re[1..]), text);
      if text != "" {
        MatchHereCorrect(re[1..], text[1..]);
        assert text[..1] == [text[0]];
      }
    }
  }

  lemma DollarCorrect(text: string)
    ensures SomeHead([End], text) <==> text == ""
  {
    if text == "" {
      assert Lang([End][1..], text[..0][0..]);
      assert Accepts([End][0], text[..0][..0]);
      assert Lang([End], text[..0]);
      assert Head([End], text, 0);
    }
    if SomeHead([End], text) {
      var j: nat :| Head([End], text, j);
      var w := text[..j];
      var k :| 0 <= k <= |w| && Accepts([End][0], w[..k]) && Lang([End][1..], w[k..]);
      assert w[k..] == "";
    }
  }

  lemma {:induction false} MatchAnyCorrect(re: string, text: string)
    ensures MatchAny(re, text) <==> exists i: nat :: i <= |text| && MatchHere(re, text[i..])
    decreases |text|
  {
    if MatchHere(re, text) {
      assert text[0..] == text;
    } else if text != "" {
      MatchAnyCorrect(re, text[1..]);
      if i: nat :| i <= |text[1..]| && MatchHere(re, text[1..][i..]) {
        assert text[1..][i..] == text[i + 1..];
      }
      if i: nat :| i <= |text| && MatchHere(re, text[i..]) {
        assert i > 0 by { assert text[0..] == text; }
        assert text[1..][i - 1..] == text[i..];
      }
    } else {
      assert text[0..] == text;
    }
  }

  /** match says yes exactly when some piece of the text, respecting '^' and '$', is in the language of
      the pattern. */
  lemma MatchCorrect(re: string, text: string)
    ensures Match(re, text) <==> Matches(re, text)
  {
    var anchored := re != "" && re[0] == '^';
    var body := if anchored then re[1..] else re;
    var items := Items(body);
    MatchAnyCorrect(re, text);
    forall i: nat | i <= |text| ensures MatchHere(body, text[i..]) <==> PieceFrom(items, text, i) {
      MatchHereCorrect(body, text[i..]);
      HeadIsPiece(items, text, i);
    }
    assert text[0..] == text;
    if Match(re, text) {
      var i: nat :| i <= |text| && MatchHere(body, text[i..]) && (anchored ==> i == 0);
      assert PieceFrom(items, text, i);
    }
    if Matches(re, text) {
      var i, j :| 0 <= i <= j <= |text| && InLanguage(items, text[i..j]) && (anchored ==> i == 0)
          && (AtEnd(items) ==> j == |text|);
      assert PieceFrom(items, text, i);
    }
  }

  ghost predicate PieceFrom(items: seq<Item>, text: string, i: nat) {
    exists j :: i <= j <= |text| && InLanguage(items, text[i..j]) && (AtEnd(items) ==> j == |text|)
  }

  lemma HeadIsPiece(items: seq<Item>, text: string, i: nat)
    requires i <= |text|
    ensures SomeHead(items, text[i..]) <==> PieceFrom(items, text, i)
  {
    if SomeHead(items, text[i..]) {
      var j: nat :| Head(items, text[i..], j);
      assert text[i..i + j] == text[i..][..j];
      LangIsInLanguage(items, text[i..i + j]);
    }
    if j :| i <= j <= |text| && InLanguage(items, text[i..j]) && (AtEnd(items) ==> j == |text|) {
      assert text[i..j] == text[i..][..j - i];
      LangIsInLanguage(items, text[i..j]);
      assert Head(items, text[i..], j - i);
    }
  }

  // ----- the matcher as written

  method RunMatchHere(re: string, text: string) returns (r: bool)
    ensures r == MatchHere(re, text)
    decreases |re|, |text|, 0
  {
    if re == "" {
      return true;
    }
    if |re| > 1 && re[1] == '*' {
      r := RunMatchStar(re[0], re[2..], text);
      return;
    }
    if re[0] == '$' && |re| == 1 {
      return text == "";
    }
    if text != "" && (re[0] == '.' || re[0] == text[0]) {
      r := RunMatchHere(re[1..], text[1..]);
      return;
    }
    r := false;
  }

  /** The do-while loop of matchstar: the text pointer advances past characters the star accepts. */
  method RunMatchStar(c: char, re: string, text: string) returns (r: bool)
    ensures r == MatchStar(c, re, text)
    decreases |re|, |text|, 1
  {
    var t := text;
    while true
      invariant |t| <= |text|
      invariant MatchStar(c, re, text) == MatchStar(c, re, t)
      decreases |t|
    {
      r := RunMatchHere(re, t);
      if r {
        return;
      }
      if !(t != "" && (t[0] == c || c == '.')) {
        return false;
      }
      t := t[1..];
    }
  }

  /** match: yes exactly when the pattern matches somewhere. */
  method RunMatch(re: string, text: string) returns (r: bool)
    ensures r <==> Matches(re, text)
  {
    MatchCorrect(re, text);
    if re != "" && re[0] == '^' {
      r := RunMatchHere(re[1..], text);
      return;
    }
    var t := text;
    while true
      invariant MatchAny(re, text) == MatchAny(re, t)
      decreases |t|
    {
      r := RunMatchHere(re, t);
      if r {
        return;
      }
      if t == "" {
        return false;
      }
      t := t[1..];
    }
  }
}
