/**
 * grep.c's matcher, from chapter 9 of The Practice of Programming, against the language its patterns
 * declare: literals, '.', c*, a leading '^' and a trailing '$'.  Strings stand for C strings without
 * their terminating NUL.
 */
module Grep {
  // ---- the declared language ----

  /** One item of a pattern. */
  datatype Item = One(c: char) | Many(c: char)

  /** A pattern's items in order, and whether it ends with '$'. */
  datatype Pattern = Pattern(items: seq<Item>, atEnd: bool)

  predicate Fits(c: char, x: char) { c == '.' || c == x }

  predicate IsWord(item: Item, w: string) {
    match item
    case One(c) => |w| == 1 && Fits(c, w[0])
    case Many(c) => forall k | 0 <= k < |w| :: Fits(c, w[k])
  }

  /** w is one word of each item, one after the other. */
  ghost predicate InLang(items: seq<Item>, w: string) {
    if items == [] then w == []
    else exists k: nat | k <= |w| :: IsWord(items[0], w[..k]) && InLang(items[1..], w[k..])
  }

  /** The items of a pattern without its '^': '*' makes the character before it an item, a final '$' is none. */
  function Parse(re: string): Pattern {
    if re == [] then Pattern([], false)
    else if |re| >= 2 && re[1] == '*' then
      var p := Parse(re[2..]);
      Pattern([Many(re[0])] + p.items, p.atEnd)
    else if re == "$" then Pattern([], true)
    else
      var p := Parse(re[1..]);
      Pattern([One(re[0])] + p.items, p.atEnd)
  }

  /** The first j characters of the text are in the language, and they are all of it for a '$'. */
  ghost predicate FitsUpTo(p: Pattern, text: string, j: nat) {
    j <= |text| && InLang(p.items, text[..j]) && (p.atEnd ==> j == |text|)
  }

  ghost predicate FitsHere(p: Pattern, text: string) { exists j: nat :: FitsUpTo(p, text, j) }

  /** Some substring of the text is in the language, at the start for a '^' and at the end for a '$'. */
  ghost predicate Contains(re: string, text: string) {
    if re != [] && re[0] == '^' then FitsHere(Parse(re[1..]), text)
    else exists i: nat | i <= |text| :: FitsHere(Parse(re), text[i..])
  }

  // ---- the recursion of matchhere() and matchstar() ----

  function MatchHere(re: string, text: string): bool
    decreases |re|, |text|, 0
  {
    if re == [] then true
    else if |re| >= 2 && re[1] == '*' then MatchStar(re[0], re[2..], text)
    else if re[0] == '$' && |re| == 1 then text == []
    else if text != [] && (re[0] == '.' || re[0] == text[0]) then MatchHere(re[1..], text[1..])
    else false
  }

  function MatchStar(c: char, re: string, text: string): bool
    decreases |re|, |text|, 1
  {
    MatchHere(re, text) || (text != [] && (text[0] == c || c == '.') && MatchStar(c, re, text[1..]))
  }

  // ---- the program ----

  method Matchhere(re: string, text: string) returns (r: bool)
    ensures r == MatchHere(re, text) && (r <==> FitsHere(Parse(re), text))
    decreases |re|, |text|, 0
  {
    hide FitsHere, Parse;
    HereCorrect(re, text);
    if re == [] {
      return true;
    }
    if |re| >= 2 && re[1] == '*' {
      r := Matchstar(re[0], re[2..], text);
      return r;
    }
    if re[0] == '$' && |re| == 1 {
      return text == [];
    }
    if text != [] && (re[0] == '.' || re[0] == text[0]) {
      r := Matchhere(re[1..], text[1..]);
      return r;
    }
    r := false;
  }

  method Matchstar(c: char, re: string, text: string) returns (r: bool)
    ensures r == MatchStar(c, re, text) && (r <==> exists k: nat :: ItemFits(Many(c), Parse(re), text, k))
    decreases |re|, |text|, 1
  {
    hide FitsHere, Parse, ItemFits;
    StarCorrect(c, re, Parse(re), text);
    var rest := text;
    while true
      invariant |rest| <= |text|
      invariant MatchStar(c, re, rest) == MatchStar(c, re, text)
      decreases |rest|
    {
      var here := Matchhere(re, rest);
      if here {
        return true;
      }
      if rest == [] {
        break;
      }
      var x := rest[0];
      if !(x == c || c == '.') {
        break;
      }
      rest := rest[1..];
    }
    r := false;
  }

  /** match(): terminates on every pattern and text and finds exactly the declared language. */
  method Match(re: string, text: string) returns (r: bool)
    ensures r <==> Contains(re, text)
  {
    if re != [] && re[0] == '^' {
      r := Matchhere(re[1..], text);
      return;
    }
    var i := 0;
    while true
      invariant i <= |text|
      invariant forall k: nat | k < i :: !FitsHere(Parse(re), text[k..])
      decreases |text| - i
    {
      var here := Matchhere(re, text[i..]);
      if here {
        return true;
      }
      if i == |text| {
        break;
      }
      i := i + 1;
    }
    r := false;
  }

  // ---- the recursion decides the language ----

  /** The next k characters are a word of the item, and the pattern fits after them. */
  ghost predicate ItemFits(item: Item, p: Pattern, text: string, k: nat) {
    k <= |text| && IsWord(item, text[..k]) && FitsHere(p, text[k..])
  }

  /** A pattern that starts with an item fits where a word of the item is followed by a fit of the rest. */
  lemma FirstItem(item: Item, p: Pattern, text: string)
    ensures FitsHere(Pattern([item] + p.items, p.atEnd), text)
            <==> exists k: nat :: ItemFits(item, p, text, k)
  {
    hide FitsUpTo, ItemFits;
    var q := Pattern([item] + p.items, p.atEnd);
    if FitsHere(q, text) {
      var j: nat :| FitsUpTo(q, text, j);
      var k := FirstWord(item, p, text, j);
    }
    if k: nat :| ItemFits(item, p, text, k) {
      var j := WordThen(item, p, text, k);
    }
  }

  lemma Slices(text: string, k: nat, j: nat)
    requires k <= j <= |text|
    ensures text[..j][..k] == text[..k] && text[..j][k..] == text[k..][..j - k]
  {
  }

  lemma FirstWord(item: Item, p: Pattern, text: string, j: nat) returns (k: nat)
    requires FitsUpTo(Pattern([item] + p.items, p.atEnd), text, j)
    ensures ItemFits(item, p, text, k)
  {
    var q := Pattern([item] + p.items, p.atEnd);
    assert q.items[1..] == p.items;
    var w := text[..j];
    k :| k <= |w| && IsWord(item, w[..k]) && InLang(p.items, w[k..]);
    Slices(text, k, j);
    assert FitsUpTo(p, text[k..], j - k);
  }

  lemma WordThen(item: Item, p: Pattern, text: string, k: nat) returns (j: nat)
    requires ItemFits(item, p, text, k)
    ensures FitsUpTo(Pattern([item] + p.items, p.atEnd), text, j)
  {
    var q := Pattern([item] + p.items, p.atEnd);
    assert q.items[1..] == p.items;
    var i: nat :| FitsUpTo(p, text[k..], i);
    j := k + i;
    var w := text[..j];
    Slices(text, k, j);
    assert InLang(q.items, w);
  }

  lemma NoItems(atEnd: bool, text: string)
    ensures FitsHere(Pattern([], atEnd), text) <==> (atEnd ==> text == [])
  {
    if atEnd ==> text == [] {
      assert text[..0] == [];
      assert FitsUpTo(Pattern([], atEnd), text, 0);
    }
    if j: nat :| FitsUpTo(Pattern([], atEnd), text, j) {
      assert j == 0;
    }
  }

  lemma {:induction false} HereCorrect(re: string, text: string)
    ensures MatchHere(re, text) <==> FitsHere(Parse(re), text)
    decreases |re|, |text|, 0
  {
    if re == [] {
      NoItems(false, text);
    } else if |re| >= 2 && re[1] == '*' {
      var p := Parse(re[2..]);
      FirstItem(Many(re[0]), p, text);
      StarCorrect(re[0], re[2..], p, text);
    } else if re == "$" {
      NoItems(true, text);
    } else {
      FirstItem(One(re[0]), Parse(re[1..]), text);
      if text != [] {
        HereCorrect(re[1..], text[1..]);
        assert text[..1] == [text[0]];
        assert ItemFits(One(re[0]), Parse(re[1..]), text, 1) <==> Fits(re[0], text[0]) && MatchHere(re[1..], text[1..]);
      }
    }
  }

  lemma StarNone(c: char, p: Pattern, text: string)
    ensures ItemFits(Many(c), p, text, 0) <==> FitsHere(p, text)
    ensures text == [] || !Fits(c, text[0]) ==> forall k: nat | ItemFits(Many(c), p, text, k) :: k == 0
  {
    hide FitsHere;
    assert text[..0] == [] && text[0..] == text;
    assert forall k: nat | 0 < k <= |text| :: text[..k][0] == text[0];
  }

  lemma StarOneMore(c: char, p: Pattern, text: string, k: nat)
    requires text != [] && Fits(c, text[0])
    ensures ItemFits(Many(c), p, text, k + 1) <==> ItemFits(Many(c), p, text[1..], k)
  {
    hide FitsHere;
    if k < |text| {
      assert text[..k + 1] == [text[0]] + text[1..][..k] && text[k + 1..] == text[1..][k..];
    }
  }

  lemma {:induction false} StarCorrect(c: char, re: string, p: Pattern, text: string)
    requires p == Parse(re)
    ensures MatchStar(c, re, text) <==> exists k: nat :: ItemFits(Many(c), p, text, k)
    decreases |re|, |text|, 1
  {
    hide FitsHere, MatchHere, Parse, ItemFits;
    HereCorrect(re, text);
    StarNone(c, p, text);
    if text != [] && Fits(c, text[0]) {
      var rest := text[1..];
      StarCorrect(c, re, p, rest);
      if k: nat :| ItemFits(Many(c), p, rest, k) {
        StarOneMore(c, p, text, k);
      }
      if k: nat :| ItemFits(Many(c), p, text, k) && k > 0 {
        StarOneMore(c, p, text, k - 1);
      }
    }
  }

  // ---- patterns that mean what they look like ----

  /** No character of the pattern has a special meaning. */
  predicate Plain(re: string) { forall k | 0 <= k < |re| :: re[k] !in ".*$^" }

  lemma {:induction false} PlainHere(re: string, end: string, text: string)
    requires Plain(re) && end in {"", "$"}
    ensures MatchHere(re + end, text) <==> if end == "$" then text == re else re <= text
  {
    if re == [] {
      assert re + end == end;
    } else {
      assert (re + end)[1..] == re[1..] + end && (re + end)[0] == re[0];
      assert |re + end| >= 2 ==> (re + end)[1] == if |re| > 1 then re[1] else end[0];
      if text != [] && text[0] == re[0] {
        PlainHere(re[1..], end, text[1..]);
        assert text == [text[0]] + text[1..] && re == [re[0]] + re[1..];
      }
    }
  }

  /** A plain pattern finds itself: anywhere, after '^' at the start, before '$' at the end. */
  lemma PlainContains(re: string, end: string, text: string)
    requires Plain(re) && end in {"", "$"}
    ensures Contains("^" + re + end, text) <==> if end == "$" then text == re else re <= text
    ensures Contains(re + end, text) <==>
            exists i | 0 <= i <= |text| :: if end == "$" then text[i..] == re else re <= text[i..]
  {
    hide FitsHere, Parse, MatchHere;
    assert ("^" + re + end)[1..] == re + end;
    forall t ensures FitsHere(Parse(re + end), t) <==> if end == "$" then t == re else re <= t {
      PlainHere(re, end, t);
      HereCorrect(re + end, t);
    }
    assert re + end != [] ==> (re + end)[0] != '^';
  }

  /** "^c*$" matches the texts of c's only, and any text if c is '.'. */
  lemma StarOnly(c: char, text: string)
    ensures Contains(['^', c, '*', '$'], text) <==> c == '.' || forall k | 0 <= k < |text| :: text[k] == c
  {
    hide FitsHere, Parse, MatchHere;
    assert ['^', c, '*', '$'][1..] == [c, '*', '$'] && [c, '*', '$'][2..] == "$";
    HereCorrect([c, '*', '$'], text);
    StarHere(c, text);
    StarToEnd(c, text);
  }

  lemma StarHere(c: char, text: string)
    ensures MatchHere([c, '*', '$'], text) == MatchStar(c, "$", text)
  {
    assert [c, '*', '$'][2..] == "$";
  }

  lemma {:induction false} StarToEnd(c: char, text: string)
    ensures MatchStar(c, "$", text) <==> c == '.' || forall k | 0 <= k < |text| :: text[k] == c
  {
    if text != [] {
      StarToEnd(c, text[1..]);
      assert forall k | 0 < k < |text| :: text[k] == text[1..][k - 1];
    }
  }
}
