/**
 * gettoken() on whole lines: a line is its tokens with white space between them, and every such line is read
 * as those tokens, whatever the white space, where two words and two ">"s are kept apart.
 */
module ShellLexer {
  import opened ShellGrammar

  predicate GoodToken(tok: Token) {
    match tok
    case Sym(c) => c in "<|>&;()+"
    case Word(w) => GoodWord(w)
  }

  predicate GoodTokens(toks: seq<Token>) { forall k | 0 <= k < |toks| :: GoodToken(toks[k]) }

  predicate Gap(g: string) { forall k | 0 <= k < |g| :: g[k] in " \t\r\n\U{0B}" }

  /** How a token is written. */
  function Written(tok: Token): string {
    match tok
    case Sym(c) => if c == '+' then ">>" else [c]
    case Word(w) => w
  }

  /** Written one after the other, the two would be read as one token. */
  predicate Merge(a: Token, b: Token) { (a.Word? && b.Word?) || (a == Sym('>') && b in {Sym('>'), Sym('+')}) }

  /** White space, and enough of it between tokens. */
  predicate Gaps(toks: seq<Token>, gaps: seq<string>) {
    && |gaps| == |toks| + 1 && (forall k | 0 <= k < |gaps| :: Gap(gaps[k]))
    && forall k | 0 < k < |toks| && Merge(toks[k - 1], toks[k]) :: gaps[k] != ""
  }

  /** The tokens with gaps before, between and after them. */
  function Spaced(toks: seq<Token>, gaps: seq<string>): string
    requires |gaps| == |toks| + 1
  {
    if toks == [] then gaps[0] else gaps[0] + (Written(toks[0]) + Spaced(toks[1..], gaps[1..]))
  }

  lemma LexFirst(s: string)
    ensures var t := s[SpaceLength(s)..];
            Lex(s) == if t == [] then [] else [FirstToken(t).0] + Lex(t[FirstToken(t).1..])
  {
  }

  lemma {:induction false} LexGap(g: string, s: string)
    requires Gap(g)
    ensures Lex(g + s) == Lex(s)
  {
    hide Lex, FirstToken;
    if g == [] {
      assert g + s == s;
    } else {
      LexGap(g[1..], s);
      LexFirst(g + s);
      LexFirst(g[1..] + s);
      assert (g + s)[1..] == g[1..] + s && IsSpace((g + s)[0]);
      assert (g + s)[SpaceLength(g + s)..] == (g[1..] + s)[SpaceLength(g[1..] + s)..];
    }
  }

  /** A token is read as such if what follows does not lengthen it. */
  predicate Stands(tok: Token, s: string) {
    s != [] ==> (tok.Word? ==> !InWord(s[0])) && (tok == Sym('>') ==> s[0] != '>')
  }

  lemma WordStands(w: string, s: string)
    requires GoodWord(w) && Stands(Word(w), s)
    ensures WordLength(w + s) == |w|
  {
    var t := w + s;
    assert forall k | 0 <= k < |w| :: t[k] == w[k];
    assert |w| < |t| ==> t[|w|] == s[0];
  }

  lemma FirstIs(tok: Token, s: string)
    requires GoodToken(tok) && Stands(tok, s)
    ensures var t := Written(tok) + s; t != [] && !IsSpace(t[0]) && FirstToken(t) == (tok, |Written(tok)|)
  {
    var t := Written(tok) + s;
    assert t != [] && t[0] == Written(tok)[0];
    match tok
    case Word(w) =>
      WordStands(w, s);
      assert InWord(w[0]) && t[..|w|] == w;
    case Sym(c) =>
      assert |t| >= 2 ==> t[1] == if c == '+' then '>' else s[0];
  }

  lemma LexOne(tok: Token, s: string)
    requires GoodToken(tok) && Stands(tok, s)
    ensures Lex(Written(tok) + s) == [tok] + Lex(s)
  {
    hide Lex, FirstToken, Written, GoodToken, Stands, IsSpace;
    var t := Written(tok) + s;
    FirstIs(tok, s);
    LexFirst(t);
    assert SpaceLength(t) == 0 && t[0..] == t && t[|Written(tok)|..] == s;
  }

  lemma SpacedHead(toks: seq<Token>, gaps: seq<string>, prev: Token)
    requires GoodTokens(toks) && Gaps(toks, gaps) && GoodToken(prev)
    requires toks != [] && Merge(prev, toks[0]) ==> gaps[0] != ""
    ensures Stands(prev, Spaced(toks, gaps))
  {
    if gaps[0] != "" {
      assert gaps[0][0] in " \t\r\n\U{0B}";
    } else if toks != [] {
      assert GoodToken(toks[0]);
      assert Spaced(toks, gaps)[0] == Written(toks[0])[0];
    }
  }

  /** Every way to write tokens is read back as them. */
  lemma {:induction false} LexSpaced(toks: seq<Token>, gaps: seq<string>)
    requires GoodTokens(toks) && Gaps(toks, gaps)
    ensures Lex(Spaced(toks, gaps)) == toks
  {
    hide Lex, GoodToken, Written, Merge, Gap, Stands;
    if toks == [] {
      LexGap(gaps[0], "");
      assert gaps[0] + "" == gaps[0];
      LexNothing();
    } else {
      var rest := Spaced(toks[1..], gaps[1..]);
      GapsTail(toks, gaps);
      LexSpaced(toks[1..], gaps[1..]);
      SpacedHead(toks[1..], gaps[1..], toks[0]);
      LexOne(toks[0], rest);
      LexGap(gaps[0], Written(toks[0]) + rest);
      assert toks == [toks[0]] + toks[1..];
    }
  }

  lemma LexNothing()
    ensures Lex("") == []
  {
  }

  lemma GapsTail(toks: seq<Token>, gaps: seq<string>)
    requires GoodTokens(toks) && Gaps(toks, gaps) && toks != []
    ensures GoodTokens(toks[1..]) && Gaps(toks[1..], gaps[1..])
    ensures |toks| > 1 && Merge(toks[0], toks[1..][0]) ==> gaps[1..][0] != ""
  {
    hide GoodToken, Merge, Gap;
    forall k | 0 < k < |toks[1..]| && Merge(toks[1..][k - 1], toks[1..][k]) ensures gaps[1..][k] != "" {
      assert Merge(toks[k], toks[k + 1]);
    }
  }

  // ---- every line is tokens with gaps ----

  lemma {:induction false} SpaceIsGap(s: string)
    ensures Gap(s[..SpaceLength(s)])
  {
    if s != [] && IsSpace(s[0]) {
      SpaceIsGap(s[1..]);
      assert s[..SpaceLength(s)] == [s[0]] + s[1..][..SpaceLength(s[1..])];
    }
  }

  lemma FirstWritten(s: string)
    requires s != [] && !IsSpace(s[0])
    ensures var (tok, n) := FirstToken(s); GoodToken(tok) && s[..n] == Written(tok) && Stands(tok, s[n..])
  {
    var n := FirstToken(s).1;
    assert s[..n] + s[n..] == s;
  }

  /** s is the tokens with these gaps. */
  predicate LineOf(toks: seq<Token>, gaps: seq<string>, s: string) {
    GoodTokens(toks) && Gaps(toks, gaps) && Spaced(toks, gaps) == s
  }

  lemma LineOfNone(g: string)
    requires Gap(g)
    ensures LineOf([], [g], g)
  {
  }

  lemma LineOfMore(tok: Token, toks: seq<Token>, g: string, gaps: seq<string>, s: string)
    requires GoodToken(tok) && Gap(g) && LineOf(toks, gaps, s) && Stands(tok, s)
    ensures LineOf([tok] + toks, [g] + gaps, g + (Written(tok) + s))
  {
    hide Gap, GoodToken, Merge, Stands, Written;
    var toks', gaps' := [tok] + toks, [g] + gaps;
    assert toks'[1..] == toks && gaps'[1..] == gaps;
    forall k | 0 < k < |toks'| && Merge(toks'[k - 1], toks'[k]) ensures gaps'[k] != "" {
      if k == 1 {
        if gaps[0] == "" { NotMerged(tok, toks, gaps); }
      } else {
        assert Merge(toks[k - 2], toks[k - 1]);
      }
    }
  }

  lemma Cut(s: string, n: nat)
    requires n <= |s|
    ensures s == s[..n] + s[n..] && (s[n..] == [] ==> s == s[..n])
  {
  }

  /** The white space of a line. */
  lemma {:induction false} GapsOf(s: string) returns (gaps: seq<string>)
    ensures LineOf(Lex(s), gaps, s)
    decreases |s|
  {
    hide Lex, LineOf, GoodToken, Written, Gap, Stands, FirstToken, IsSpace, SpaceLength;
    var g, t := s[..SpaceLength(s)], s[SpaceLength(s)..];
    SpaceIsGap(s);
    LexFirst(s);
    if t == [] {
      gaps := [g];
      LineOfNone(g);
      Cut(s, |g|);
    } else {
      var tok, n := FirstToken(t).0, FirstToken(t).1;
      FirstWritten(t);
      var more := GapsOf(t[n..]);
      gaps := [g] + more;
      LineOfMore(tok, Lex(t[n..]), g, more, t[n..]);
      Cut(s, |g|);
      Cut(t, n);
    }
  }

  lemma NotMerged(tok: Token, toks: seq<Token>, gaps: seq<string>)
    requires GoodTokens(toks) && toks != [] && |gaps| == |toks| + 1 && Stands(tok, Spaced(toks, gaps))
    requires gaps[0] == ""
    ensures !Merge(tok, toks[0])
  {
    assert GoodToken(toks[0]);
    assert Spaced(toks, gaps)[0] == Written(toks[0])[0];
  }

  /** toks are the tokens of s if and only if s is toks with gaps. */
  lemma LexExact(s: string, toks: seq<Token>)
    ensures Lex(s) == toks <==> exists gaps :: LineOf(toks, gaps, s)
  {
    hide Lex, Spaced;
    var gaps := GapsOf(s);
    forall other | LineOf(toks, other, s) ensures Lex(s) == toks {
      LexSpaced(toks, other);
    }
  }
}
