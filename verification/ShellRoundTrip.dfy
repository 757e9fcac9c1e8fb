/** Parsing the printed text of a command tree gives the tree back, and only printable trees are ever parsed. */
module ShellRoundTrip {
  import opened Wrappers
  import opened ShellGrammar
  import opened ShellLexer
  import opened ShellLanguage

  // ---- printed tokens are read back ----

  predicate Printable(tok: Token) { GoodToken(tok) && tok != Sym('+') }

  predicate AllPrintable(toks: seq<Token>) { forall k | 0 <= k < |toks| :: Printable(toks[k]) }

  /** The gap g before the tokens and one space after each. */
  function OneSpace(g: string, n: nat): (gaps: seq<string>)
    ensures |gaps| == n + 1 && gaps[0] == g && forall k | 0 < k <= n :: gaps[k] == " "
  {
    [g] + seq(n, _ => " ")
  }

  lemma RenderHead(toks: seq<Token>)
    requires toks != [] && Printable(toks[0])
    ensures Render(toks) == Written(toks[0]) + (" " + Render(toks[1..]))
  {
  }

  lemma SpacedStep(g: string, toks: seq<Token>)
    requires toks != []
    ensures Spaced(toks, OneSpace(g, |toks|)) == g + (Written(toks[0]) + Spaced(toks[1..], OneSpace(" ", |toks| - 1)))
  {
    hide Written;
    assert OneSpace(g, |toks|)[1..] == OneSpace(" ", |toks| - 1);
  }

  lemma {:induction false} RenderSpaced(g: string, toks: seq<Token>)
    requires AllPrintable(toks)
    ensures g + Render(toks) == Spaced(toks, OneSpace(g, |toks|))
    decreases |toks|
  {
    hide Printable, Written, OneSpace;
    if toks == [] {
      assert g + Render(toks) == g;
    } else {
      hide Render, Spaced;
      RenderSpaced(" ", toks[1..]);
      RenderHead(toks);
      SpacedStep(g, toks);
    }
  }

  lemma LexRender(toks: seq<Token>)
    requires AllPrintable(toks)
    ensures Lex(Render(toks)) == toks
  {
    hide Lex, Render, Spaced;
    RenderSpaced("", toks);
    assert "" + Render(toks) == Render(toks);
    LexSpaced(toks, OneSpace("", |toks|));
  }

  lemma {:induction false} WordsPrintable(argv: seq<string>)
    requires forall w | w in argv :: GoodWord(w)
    ensures AllPrintable(Words(argv))
  {
    if argv != [] {
      WordsPrintable(argv[1..]);
    }
  }

  lemma PrintablePlus(a: seq<Token>, b: seq<Token>)
    requires AllPrintable(a) && AllPrintable(b)
    ensures AllPrintable(a + b)
  {
  }

  lemma SymbolPrintable(c: char)
    requires c in "<|>&;()"
    ensures AllPrintable([Sym(c)])
  {
  }

  lemma {:induction false} TokensPrintable(t: Cmd<string>)
    requires Good(t)
    ensures AllPrintable(ExecTokens(t)) && AllPrintable(PipeTokens(t)) && AllPrintable(BackTokens(t)) &&
            AllPrintable(LineTokens(t))
  {
    hide AllPrintable, GoodWord;
    match t
    case Exec(argv) => WordsPrintable(argv);
    case Redir(cmd, file, _, fd) =>
      TokensPrintable(cmd);
      RedirPrintable(file, fd);
      PrintablePlus(ExecTokens(cmd), RedirTokens(file, fd));
    case Pipe(left, right) =>
      TokensPrintable(left);
      TokensPrintable(right);
      BodyPrintable(ExecTokens(left), '|', PipeTokens(right));
    case List(left, right) =>
      TokensPrintable(left);
      TokensPrintable(right);
      BodyPrintable(BackTokens(left), ';', LineTokens(right));
    case Back(cmd) =>
      TokensPrintable(cmd);
      NothingPrintable();
      BodyPrintable(BackTokens(cmd), '&', []);
      assert BackTokens(cmd) + [Sym('&')] + [] == BackTokens(cmd) + [Sym('&')];
  }

  lemma NothingPrintable()
    ensures AllPrintable([])
  {
  }

  lemma RedirPrintable(file: string, fd: nat)
    requires GoodWord(file)
    ensures AllPrintable(RedirTokens(file, fd))
  {
  }

  lemma BodyPrintable(a: seq<Token>, c: char, b: seq<Token>)
    requires AllPrintable(a) && AllPrintable(b) && c in "|;&"
    ensures AllPrintable(a + [Sym(c)] + b) && AllPrintable([Sym('(')] + (a + [Sym(c)] + b) + [Sym(')')])
  {
    hide AllPrintable;
    SymbolPrintable(c);
    SymbolPrintable('(');
    SymbolPrintable(')');
    PrintablePlus(a, [Sym(c)]);
    PrintablePlus(a + [Sym(c)], b);
    PrintablePlus([Sym('(')], a + [Sym(c)] + b);
    PrintablePlus([Sym('(')] + (a + [Sym(c)] + b), [Sym(')')]);
  }

  // ---- the text that is printed ----

  /** One redirection more after a command. */
  function Extended(t: Text, i: Item): Text {
    match t
    case Simple(items) => Simple(items + [i])
    case Block(body, redirs) => Block(body, redirs + [i])
    case _ => t
  }

  function ArgItems(argv: seq<string>): seq<Item> {
    if argv == [] then [] else [Arg(argv[0])] + ArgItems(argv[1..])
  }

  function BodyText(c: Cmd<string>): Text
    requires c.Pipe? || c.List? || c.Back?
    decreases c, 0
  {
    match c
    case Pipe(left, right) => Piped(ExecText(left), PipeText(right))
    case List(left, right) => Then(BackText(left), LineText(right))
    case Back(cmd) => Amp(BackText(cmd))
  }

  function ExecText(c: Cmd<string>): Text
    decreases c, 1
  {
    match c
    case Exec(argv) => Simple(ArgItems(argv))
    case Redir(cmd, file, mode, fd) => Extended(ExecText(cmd), To(if fd == 0 then '<' else '>', file))
    case _ => Block(BodyText(c), [])
  }

  function PipeText(c: Cmd<string>): Text
    decreases c, 2
  {
    if c.Pipe? then BodyText(c) else ExecText(c)
  }

  function BackText(c: Cmd<string>): Text
    decreases c, 3
  {
    if c.Back? then BodyText(c) else PipeText(c)
  }

  function LineText(c: Cmd<string>): Text
    decreases c, 4
  {
    if c.List? then BodyText(c) else BackText(c)
  }

  lemma {:induction false} ArgItemsAre(argv: seq<string>)
    ensures ItemTokens(ArgItems(argv)) == Words(argv)
    ensures forall i | i in ArgItems(argv) :: i.Arg?
  {
    if argv != [] {
      ArgItemsAre(argv[1..]);
      assert ArgItems(argv)[1..] == ArgItems(argv[1..]);
    }
  }

  lemma {:induction false} ArgItemsMean(done: seq<Item>, argv: seq<string>)
    ensures Argv(done + ArgItems(argv)) == Argv(done) + argv
    decreases |argv|
  {
    hide Argv, Around;
    if argv == [] {
      assert done + ArgItems(argv) == done;
    } else {
      hide ArgItems;
      ArgItemsHead(argv);
      ArgItemsMean(done + [Arg(argv[0])], argv[1..]);
      AroundMore(Exec([]), done, Arg(argv[0]));
      assert done + [Arg(argv[0])] + ArgItems(argv[1..]) == done + ([Arg(argv[0])] + ArgItems(argv[1..]));
      assert Argv(done) + [argv[0]] + argv[1..] == Argv(done) + argv;
    }
  }

  lemma ArgItemsHead(argv: seq<string>)
    requires argv != []
    ensures ArgItems(argv) == [Arg(argv[0])] + ArgItems(argv[1..])
  {
  }

  lemma {:induction false} OnlyArgs(c: Cmd<string>, items: seq<Item>)
    requires forall i | i in items :: i.Arg?
    ensures Around(c, items) == c
  {
    if items != [] {
      OnlyArgs(c, items[..|items| - 1]);
      assert items[|items| - 1] in items;
    }
  }

  /** t is written with these tokens and means this tree. */
  predicate IsTextOf(t: Text, toks: seq<Token>, c: Cmd<string>) { Yield(t) == toks && Meaning(t) == c }

  lemma SimpleText(argv: seq<string>)
    requires |argv| < 10
    ensures IsCommand(Simple(ArgItems(argv))) && IsTextOf(Simple(ArgItems(argv)), Words(argv), Exec(argv))
  {
    ArgItemsAre(argv);
    ArgItemsMean([], argv);
    assert [] + ArgItems(argv) == ArgItems(argv) && [] + argv == argv;
    OnlyArgs(Exec(argv), ArgItems(argv));
  }

  lemma ExtendedText(t: Text, op: char, file: string)
    requires IsCommand(t) && op in "<>"
    ensures IsCommand(Extended(t, To(op, file)))
    ensures IsTextOf(Extended(t, To(op, file)), Yield(t) + [Sym(op), Word(file)],
                    Redirected(Meaning(t), To(op, file)))
  {
    hide Around, Argv, IsLine, Redirected, ItemTokens;
    var i := To(op, file);
    ToTokens(op, file);
    match t
    case Simple(items) =>
      ItemsPlus(items, i);
      BuiltMore(items, i);
      AroundMore(Exec([]), items, i);
    case Block(body, redirs) =>
      ItemsPlus(redirs, i);
      AroundMore(Meaning(body), redirs, i);
      Assoc([Sym('(')] + Yield(body) + [Sym(')')], ItemTokens(redirs), ItemTokens([i]));
  }

  lemma ToTokens(op: char, file: string)
    ensures ItemTokens([To(op, file)]) == [Sym(op), Word(file)]
  {
  }

  lemma Assoc(a: seq<Token>, b: seq<Token>, c: seq<Token>)
    ensures a + b + c == a + (b + c)
  {
  }

  lemma BlockText(t: Text)
    requires IsLine(t)
    ensures IsCommand(Block(t, []))
    ensures IsTextOf(Block(t, []), [Sym('(')] + Yield(t) + [Sym(')')], Meaning(t))
  {
    var s := [Sym('(')] + Yield(t) + [Sym(')')];
    assert s + [] == s;
  }

  lemma CommandLevel(t: Text)
    ensures IsCommand(t) ==> IsPipeline(t) && IsBacks(t) && IsLine(t)
    ensures IsPipeline(t) ==> IsBacks(t) && IsLine(t)
    ensures IsBacks(t) ==> IsLine(t)
  {
    Levels(t);
  }

  /** The printer writes a text of the language that stands for the tree. */
  lemma {:induction false} Printed(c: Cmd<string>)
    requires Good(c)
    ensures IsCommand(ExecText(c)) && IsTextOf(ExecText(c), ExecTokens(c), c)
    ensures IsPipeline(PipeText(c)) && IsTextOf(PipeText(c), PipeTokens(c), c)
    ensures IsBacks(BackText(c)) && IsTextOf(BackText(c), BackTokens(c), c)
    ensures IsLine(LineText(c)) && IsTextOf(LineText(c), LineTokens(c), c)
  {
    hide Yield, Meaning, IsCommand, IsPipeline, IsBacks, IsLine, Extended, Words, GoodWord;
    match c
    case Exec(argv) =>
      SimpleText(argv);
      CommandLevel(ExecText(c));
    case Redir(cmd, file, mode, fd) =>
      Printed(cmd);
      ExtendedText(ExecText(cmd), if fd == 0 then '<' else '>', file);
      CommandLevel(ExecText(c));
    case _ =>
      PrintedBody(c);
      CommandLevel(BodyText(c));
      BlockText(BodyText(c));
      CommandLevel(ExecText(c));
  }

  lemma {:induction false} PrintedBody(c: Cmd<string>)
    requires Good(c) && (c.Pipe? || c.List? || c.Back?)
    ensures IsLine(BodyText(c)) && IsTextOf(BodyText(c), BodyTokens(c), c)
    ensures c.Pipe? ==> IsPipeline(BodyText(c))
    ensures c.Back? ==> IsBacks(BodyText(c))
    decreases c, 0
  {
    match c
    case Pipe(left, right) =>
      Printed(left);
      Printed(right);
      CommandLevel(BodyText(c));
    case List(left, right) =>
      Printed(left);
      Printed(right);
    case Back(cmd) =>
      Printed(cmd);
      CommandLevel(BodyText(c));
  }

  /** Parsing the printed text of a tree gives the tree. */
  lemma RoundTrip(t: Cmd<string>)
    requires Good(t)
    ensures Parse(Print(t)) == Some(t)
  {
    hide Good, Line, Lex, LineTokens, Render, LineText;
    TokensPrintable(t);
    LexRender(LineTokens(t));
    Printed(t);
    LineAccepted(LineText(t), []);
    assert LineTokens(t) + [] == LineTokens(t);
  }

  // ---- only good trees are parsed ----

  lemma {:induction false} AroundGood(c: Cmd<string>, items: seq<Item>)
    requires Good(c) && Items(items) && GoodTokens(ItemTokens(items))
    ensures Good(Around(c, items))
    ensures forall w | w in Argv(items) :: GoodWord(w)
  {
    hide GoodTokens, GoodWord, Good, IsRedir, Redirected;
    if items != [] {
      hide ItemTokens, Around, Argv;
      var front, i := items[..|items| - 1], items[|items| - 1];
      assert items == front + [i];
      ItemsPlus(front, i);
      GoodPlus(ItemTokens(front), ItemTokens([i]));
      AroundGood(c, front);
      ItemGood(i);
      AroundMore(c, front, i);
      RedirectedGood(Around(c, front), i);
    }
  }

  lemma RedirectedGood(c: Cmd<string>, i: Item)
    requires Good(c) && GoodWord(if i.Arg? then i.w else i.file)
    ensures Good(Redirected(c, i))
  {
    hide GoodWord;
  }

  lemma GoodPlus(a: seq<Token>, b: seq<Token>)
    requires GoodTokens(a + b)
    ensures GoodTokens(a) && GoodTokens(b)
  {
    hide GoodToken;
    assert forall k | 0 <= k < |a| :: (a + b)[k] == a[k];
    assert forall k | 0 <= k < |b| :: (a + b)[|a| + k] == b[k];
  }

  lemma ItemGood(i: Item)
    requires GoodTokens(ItemTokens([i]))
    ensures GoodWord(if i.Arg? then i.w else i.file)
  {
    hide GoodWord;
    var toks := ItemTokens([i]);
    assert toks == if i.Arg? then [Word(i.w)] else [Sym(i.op), Word(i.file)];
    assert GoodToken(toks[|toks| - 1]);
  }

  lemma {:induction false} TextGood(t: Text)
    requires AllItems(t) && GoodTokens(Yield(t))
    ensures Good(Meaning(t))
  {
    hide GoodTokens, GoodWord, Around, Argv;
    match t
    case Simple(items) =>
      NothingGood();
      AroundGood(Exec([]), items);
      AroundGood(Exec(Argv(items)), items);
    case Block(body, redirs) =>
      GoodPlus([Sym('(')] + Yield(body) + [Sym(')')], ItemTokens(redirs));
      GoodPlus([Sym('(')] + Yield(body), [Sym(')')]);
      GoodPlus([Sym('(')], Yield(body));
      TextGood(body);
      AroundGood(Meaning(body), redirs);
    case Piped(left, right) =>
      GoodPlus(Yield(left) + [Sym('|')], Yield(right));
      GoodPlus(Yield(left), [Sym('|')]);
      TextGood(left);
      TextGood(right);
    case Amp(cmd) =>
      GoodPlus(Yield(cmd), [Sym('&')]);
      TextGood(cmd);
    case Then(left, right) =>
      GoodPlus(Yield(left) + [Sym(';')], Yield(right));
      GoodPlus(Yield(left), [Sym(';')]);
      TextGood(left);
      TextGood(right);
  }

  lemma NothingGood()
    ensures Good(Exec([]))
  {
  }

  /** A tree is the result of some text exactly when it is good; printing its own text is then one. */
  lemma ParsedTrees(t: Cmd<string>)
    ensures (exists s :: Parse(s) == Some(t)) <==> Good(t)
  {
    hide Good, Line, Lex, Yield, Meaning, IsLine;
    if s :| Parse(s) == Some(t) {
      var gaps := GapsOf(s);
      var text := LineRead(Lex(s));
      assert Yield(text) + [] == Yield(text);
      LineItems(text);
      TextGood(text);
    }
    if Good(t) {
      RoundTrip(t);
    }
  }

  // ---- ">>" is ">" ----

  /** The tokens with ">" for every ">>". */
  function Truncating(toks: seq<Token>): (r: seq<Token>)
    ensures |r| == |toks|
  {
    seq(|toks|, k requires 0 <= k < |toks| => if toks[k] == Sym('+') then Sym('>') else toks[k])
  }

  function TruncatingRest(p: Parsed): Parsed {
    if p.None? then None else Some((p.value.0, Truncating(p.value.1)))
  }

  lemma TruncatingTail(toks: seq<Token>, n: nat)
    requires n <= |toks|
    ensures Truncating(toks)[n..] == Truncating(toks[n..])
  {
  }

  lemma TruncatingStarts(toks: seq<Token>)
    ensures forall cs: string | '+' !in cs && '>' !in cs :: StartsWith(Truncating(toks), cs) == StartsWith(toks, cs)
    ensures StartsWith(Truncating(toks), "<>+") == StartsWith(toks, "<>+")
  {
  }

  lemma {:induction false} SameRedirs(c: Cmd<string>, toks: seq<Token>)
    ensures Redirs(c, Truncating(toks)) == TruncatingRest(Redirs(c, toks))
    decreases |toks|
  {
    TruncatingStarts(toks);
    if StartsWith(toks, "<>+") && |toks| >= 2 && toks[1].Word? {
      TruncatingTail(toks, 2);
      SameRedirs(Redir(c, toks[1].w, Mode(toks[0].c), Fd(toks[0].c)), toks[2..]);
    }
  }

  lemma {:induction false} SameArgs(c: Cmd<string>, argc: nat, toks: seq<Token>)
    ensures Args(c, argc, Truncating(toks)) == TruncatingRest(Args(c, argc, toks))
    decreases |toks|
  {
    hide Redirs;
    TruncatingStarts(toks);
    if !(toks == [] || StartsWith(toks, "|)&;")) && toks[0].Word? && argc + 1 < MAXARGS {
      TruncatingTail(toks, 1);
      SameRedirs(AddArg(c, toks[0].w), toks[1..]);
      var p := Redirs(AddArg(c, toks[0].w), toks[1..]);
      if p.Some? {
        SameArgs(p.value.0, argc + 1, p.value.1);
      }
    }
  }

  lemma {:induction false} SameExec(toks: seq<Token>)
    ensures ExecOrBlock(Truncating(toks)) == TruncatingRest(ExecOrBlock(toks))
    decreases |toks|, 0
  {
    hide Redirs, Args, Line;
    TruncatingStarts(toks);
    if StartsWith(toks, "(") {
      TruncatingTail(toks, 1);
      SameLine(toks[1..]);
      var p := Line(toks[1..]);
      if p.Some? {
        TruncatingStarts(p.value.1);
        if StartsWith(p.value.1, ")") {
          TruncatingTail(p.value.1, 1);
          SameRedirs(p.value.0, p.value.1[1..]);
        }
      }
    } else {
      SameRedirs(Exec([]), toks);
      var p := Redirs(Exec([]), toks);
      if p.Some? {
        SameArgs(p.value.0, 0, p.value.1);
      }
    }
  }

  lemma {:induction false} SamePipeline(toks: seq<Token>)
    ensures Pipeline(Truncating(toks)) == TruncatingRest(Pipeline(toks))
    decreases |toks|, 1
  {
    hide ExecOrBlock;
    SameExec(toks);
    var p := ExecOrBlock(toks);
    if p.Some? {
      TruncatingStarts(p.value.1);
      if StartsWith(p.value.1, "|") {
        TruncatingTail(p.value.1, 1);
        SamePipeline(p.value.1[1..]);
      }
    }
  }

  lemma {:induction false} SameBacks(c: Cmd<string>, toks: seq<Token>)
    ensures Backs(c, Truncating(toks)) == (Backs(c, toks).0, Truncating(Backs(c, toks).1))
    decreases |toks|
  {
    TruncatingStarts(toks);
    if StartsWith(toks, "&") {
      TruncatingTail(toks, 1);
      SameBacks(Back(c), toks[1..]);
    }
  }

  lemma {:induction false} SameLine(toks: seq<Token>)
    ensures Line(Truncating(toks)) == TruncatingRest(Line(toks))
    decreases |toks|, 2
  {
    hide Pipeline, Backs;
    SamePipeline(toks);
    var p := Pipeline(toks);
    if p.Some? {
      SameBacks(p.value.0, p.value.1);
      var q := Backs(p.value.0, p.value.1);
      TruncatingStarts(q.1);
      if StartsWith(q.1, ";") {
        TruncatingTail(q.1, 1);
        SameLine(q.1[1..]);
      }
    }
  }

  lemma TruncatingPrintable(toks: seq<Token>)
    requires GoodTokens(toks)
    ensures AllPrintable(Truncating(toks))
  {
    hide GoodWord;
    assert forall k | 0 <= k < |toks| :: GoodToken(toks[k]);
  }

  /** The tree does not say whether a file was named after ">" or ">>": a text parses the same with either. */
  lemma AppendIsTruncate(s: string)
    ensures Parse(Render(Truncating(Lex(s)))) == Parse(s)
  {
    hide Lex, Line, Render, GoodTokens, AllPrintable, Truncating;
    var gaps := GapsOf(s);
    TruncatingPrintable(Lex(s));
    LexRender(Truncating(Lex(s)));
    SameLine(Lex(s));
  }
}
