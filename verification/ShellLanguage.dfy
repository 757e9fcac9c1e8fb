/**
 * The shell's language, given by its concrete syntax: which token sequences are command lines and what tree
 * each stands for.  The recursive descent accepts exactly these.
 */
module ShellLanguage {
  import opened Wrappers
  import opened ShellGrammar

  /** A word, or a redirection: op is '<', '>', or '+' for ">>". */
  datatype Item = Arg(w: string) | To(op: char, file: string)

  /** A command line as it is written. */
  datatype Text =
    | Simple(items: seq<Item>)
    | Block(body: Text, redirs: seq<Item>)
    | Piped(left: Text, right: Text)
    | Amp(cmd: Text)
    | Then(left: Text, right: Text)

  // ---- which texts there are ----

  predicate IsRedir(i: Item) { i.To? && i.op in "<>+" }

  predicate Items(items: seq<Item>) { forall i | i in items :: i.Arg? || IsRedir(i) }

  predicate OnlyRedirs(items: seq<Item>) { forall i | i in items :: IsRedir(i) }

  predicate IsCommand(t: Text)
    decreases t, 0
  {
    match t
    case Simple(items) => |Argv(items)| < 10 && Items(items)
    case Block(body, redirs) => IsLine(body) && OnlyRedirs(redirs)
    case _ => false
  }

  predicate IsPipeline(t: Text)
    decreases t, 1
  {
    if t.Piped? then IsCommand(t.left) && IsPipeline(t.right) else IsCommand(t)
  }

  predicate IsBacks(t: Text)
    decreases t, 2
  {
    if t.Amp? then IsBacks(t.cmd) else IsPipeline(t)
  }

  predicate IsLine(t: Text)
    decreases t, 3
  {
    if t.Then? then IsBacks(t.left) && IsLine(t.right) else IsBacks(t)
  }

  function ItemTokens(items: seq<Item>): seq<Token> {
    if items == [] then []
    else (match items[0] case Arg(w) => [Word(w)] case To(op, file) => [Sym(op), Word(file)]) + ItemTokens(items[1..])
  }

  /** The tokens of a text. */
  function Yield(t: Text): seq<Token> {
    match t
    case Simple(items) => ItemTokens(items)
    case Block(body, redirs) => [Sym('(')] + Yield(body) + [Sym(')')] + ItemTokens(redirs)
    case Piped(left, right) => Yield(left) + [Sym('|')] + Yield(right)
    case Amp(cmd) => Yield(cmd) + [Sym('&')]
    case Then(left, right) => Yield(left) + [Sym(';')] + Yield(right)
  }

  // ---- what they mean ----

  function Argv(items: seq<Item>): seq<string> {
    if items == [] then []
    else
      var last := items[|items| - 1];
      Argv(items[..|items| - 1]) + if last.Arg? then [last.w] else []
  }

  /** Redirection i around c: '<' opens descriptor 0 for reading, '>' and ">>" descriptor 1 for writing. */
  function Redirected(c: Cmd<string>, i: Item): Cmd<string> {
    match i
    case Arg(_) => c
    case To(op, file) => if op == '<' then Redir(c, file, 0, 0) else Redir(c, file, 0x201, 1)
  }

  /** The redirections among the items around c, the last one outermost. */
  function Around(c: Cmd<string>, items: seq<Item>): Cmd<string> {
    if items == [] then c else Redirected(Around(c, items[..|items| - 1]), items[|items| - 1])
  }

  /** The tree that a text stands for. */
  function Meaning(t: Text): Cmd<string> {
    match t
    case Simple(items) => Around(Exec(Argv(items)), items)
    case Block(body, redirs) => Around(Meaning(body), redirs)
    case Piped(left, right) => Pipe(Meaning(left), Meaning(right))
    case Amp(cmd) => Back(Meaning(cmd))
    case Then(left, right) => List(Meaning(left), Meaning(right))
  }

  // ---- one item more ----

  /** The tree of a simple command. */
  function Built(items: seq<Item>): Cmd<string> { Around(Exec(Argv(items)), items) }

  lemma AroundMore(c: Cmd<string>, items: seq<Item>, i: Item)
    ensures Around(c, items + [i]) == Redirected(Around(c, items), i)
    ensures Argv(items + [i]) == Argv(items) + if i.Arg? then [i.w] else []
  {
    assert (items + [i])[..|items|] == items;
  }

  lemma {:induction false} AddArgAround(c: Cmd<string>, items: seq<Item>, w: string)
    ensures AddArg(Around(c, items), w) == Around(AddArg(c, w), items)
  {
    if items != [] {
      AddArgAround(c, items[..|items| - 1], w);
    }
  }

  lemma BuiltMore(items: seq<Item>, i: Item)
    ensures Built(items + [i]) == if i.Arg? then AddArg(Built(items), i.w) else Redirected(Built(items), i)
    ensures |Argv(items + [i])| == |Argv(items)| + if i.Arg? then 1 else 0
  {
    hide Around, Argv;
    AroundMore(Exec(Argv(items + [i])), items, i);
    if i.Arg? {
      AddArgAround(Exec(Argv(items)), items, i.w);
    } else {
      assert Argv(items + [i]) == Argv(items);
    }
  }

  lemma {:induction false} ArgvPlus(a: seq<Item>, b: seq<Item>)
    ensures |Argv(a)| <= |Argv(a + b)|
  {
    if b == [] {
      assert a + b == a;
    } else {
      ArgvPlus(a, b[..|b| - 1]);
      assert (a + b)[..|a + b| - 1] == a + b[..|b| - 1];
    }
  }

  lemma RedirectedIs(c: Cmd<string>, op: char, file: string)
    ensures Redirected(c, To(op, file)) == Redir(c, file, Mode(op), Fd(op))
  {
  }

  // ---- simple commands ----

  predicate Ends(toks: seq<Token>, cs: string) { toks == [] || StartsWith(toks, cs) }

  /** Redirections and then words, as parseexec() reads them when the items in `done` have been read. */
  function Rest(done: seq<Item>, toks: seq<Token>): Parsed {
    var p := Redirs(Built(done), toks);
    if p.None? then None else Args(p.value.0, |Argv(done)|, p.value.1)
  }

  lemma RestStops(done: seq<Item>, toks: seq<Token>)
    requires Ends(toks, "|)&;")
    ensures Rest(done, toks) == Some((Built(done), toks))
  {
  }

  lemma RestWord(done: seq<Item>, w: string, toks: seq<Token>)
    ensures Rest(done, [Word(w)] + toks) ==
            if |Argv(done)| + 1 < 10 then Rest(done + [Arg(w)], toks) else None
  {
    hide Built, Argv, AddArg;
    BuiltMore(done, Arg(w));
    var all := [Word(w)] + toks;
    assert all[0] == Word(w) && all[1..] == toks;
  }

  lemma RestRedir(done: seq<Item>, op: char, file: string, toks: seq<Token>)
    requires op in "<>+"
    ensures Rest(done, [Sym(op), Word(file)] + toks) == Rest(done + [To(op, file)], toks)
  {
    hide Built, Argv;
    BuiltMore(done, To(op, file));
    RedirectedIs(Built(done), op, file);
    var all := [Sym(op), Word(file)] + toks;
    assert all[0] == Sym(op) && all[1] == Word(file) && all[2..] == toks && StartsWith(all, "<>+");
  }

  lemma TokensHead(items: seq<Item>, rest: seq<Token>)
    requires items != []
    ensures ItemTokens(items) + rest ==
            (match items[0] case Arg(w) => [Word(w)] case To(op, file) => [Sym(op), Word(file)]) +
            (ItemTokens(items[1..]) + rest)
  {
  }

  lemma ItemsTail(done: seq<Item>, items: seq<Item>)
    requires items != []
    ensures done + [items[0]] + items[1..] == done + items
    ensures Items(items) ==> (items[0].Arg? || IsRedir(items[0])) && Items(items[1..])
    ensures OnlyRedirs(items) ==> IsRedir(items[0]) && OnlyRedirs(items[1..])
  {
  }

  lemma {:induction false} RestAccepts(done: seq<Item>, items: seq<Item>, rest: seq<Token>)
    requires |Argv(done + items)| < 10 && Items(items) && Ends(rest, "|)&;")
    ensures Rest(done, ItemTokens(items) + rest) == Some((Built(done + items), rest))
    decreases |items|
  {
    hide Rest, Built, Argv, Ends, Items;
    if items == [] {
      assert done + items == done && ItemTokens(items) + rest == rest;
      RestStops(done, rest);
    } else {
      hide ItemTokens;
      var i, more := items[0], ItemTokens(items[1..]) + rest;
      ItemsTail(done, items);
      TokensHead(items, rest);
      RestAccepts(done + [i], items[1..], rest);
      ArgvPlus(done + [i], items[1..]);
      BuiltMore(done, i);
      match i
      case Arg(w) => RestWord(done, w, more);
      case To(op, file) => RestRedir(done, op, file, more);
    }
  }

  /** What parseexec() read is a sequence of items. */
  lemma {:induction false} RestReads(done: seq<Item>, toks: seq<Token>) returns (items: seq<Item>)
    requires |Argv(done)| < 10 && Rest(done, toks).Some?
    ensures |Argv(done + items)| < 10 && Items(items)
    ensures toks == ItemTokens(items) + Rest(done, toks).value.1 && Rest(done, toks).value.0 == Built(done + items)
    decreases |toks|, 0
  {
    hide Built, Argv;
    if StartsWith(toks, "<>+") {
      var i := To(toks[0].c, toks[1].w);
      assert toks == [Sym(i.op), Word(i.file)] + toks[2..];
      RestRedir(done, i.op, i.file, toks[2..]);
      BuiltMore(done, i);
      items := RestReadsMore(done, i, toks[2..]);
    } else if Ends(toks, "|)&;") {
      items := [];
      assert done + items == done && toks == ItemTokens(items) + toks;
      RestStops(done, toks);
    } else {
      var i := Arg(toks[0].w);
      assert toks == [Word(i.w)] + toks[1..];
      RestWord(done, i.w, toks[1..]);
      BuiltMore(done, i);
      items := RestReadsMore(done, i, toks[1..]);
    }
  }

  lemma {:induction false} RestReadsMore(done: seq<Item>, i: Item, toks: seq<Token>) returns (items: seq<Item>)
    requires |Argv(done + [i])| < 10 && Rest(done + [i], toks).Some? && (i.Arg? || IsRedir(i))
    ensures |Argv(done + items)| < 10 && items != [] && items[0] == i && Items(items)
    ensures ItemTokens(items) + Rest(done + [i], toks).value.1 ==
            (match i case Arg(w) => [Word(w)] case To(op, file) => [Sym(op), Word(file)]) + toks
    ensures Rest(done + [i], toks).value.0 == Built(done + items)
    decreases |toks|, 1
  {
    hide Built, Argv, Rest;
    var more := RestReads(done + [i], toks);
    items := [i] + more;
    assert done + [i] + more == done + items && items[1..] == more;
    TokensHead(items, Rest(done + [i], toks).value.1);
  }

  // ---- redirections after a block ----

  lemma {:induction false} RedirsAccept(c: Cmd<string>, done: seq<Item>, items: seq<Item>, rest: seq<Token>)
    requires OnlyRedirs(items) && !StartsWith(rest, "<>+")
    ensures Redirs(Around(c, done), ItemTokens(items) + rest) == Some((Around(c, done + items), rest))
    decreases |items|
  {
    hide Around, OnlyRedirs, StartsWith;
    if items == [] {
      assert done + items == done && ItemTokens(items) + rest == rest;
    } else {
      hide ItemTokens, Redirs, Redirected;
      var i, more := items[0], ItemTokens(items[1..]) + rest;
      ItemsTail(done, items);
      TokensHead(items, rest);
      AroundMore(c, done, i);
      RedirsAccept(c, done + [i], items[1..], rest);
      RedirsOne(Around(c, done), i, more);
    }
  }

  lemma RedirsOne(c: Cmd<string>, i: Item, more: seq<Token>)
    requires IsRedir(i)
    ensures Redirs(c, [Sym(i.op), Word(i.file)] + more) == Redirs(Redirected(c, i), more)
  {
    var toks := [Sym(i.op), Word(i.file)] + more;
    RedirectedIs(c, i.op, i.file);
    assert StartsWith(toks, "<>+") && toks[2..] == more;
  }

  lemma RedirsStep(c: Cmd<string>, toks: seq<Token>) returns (i: Item)
    requires StartsWith(toks, "<>+") && Redirs(c, toks).Some?
    ensures IsRedir(i) && |toks| >= 2 && toks == [Sym(i.op), Word(i.file)] + toks[2..]
    ensures Redirs(c, toks) == Redirs(Redirected(c, i), toks[2..])
  {
    i := To(toks[0].c, toks[1].w);
    RedirectedIs(c, i.op, i.file);
  }

  lemma {:induction false} RedirsRead(c: Cmd<string>, done: seq<Item>, toks: seq<Token>) returns (items: seq<Item>)
    requires Redirs(Around(c, done), toks).Some?
    ensures OnlyRedirs(items)
    ensures var r := Redirs(Around(c, done), toks).value;
            toks == ItemTokens(items) + r.1 && r.0 == Around(c, done + items)
    decreases |toks|
  {
    hide Around, Redirected, IsRedir, StartsWith;
    if StartsWith(toks, "<>+") {
      hide Redirs, ItemTokens;
      var i := RedirsStep(Around(c, done), toks);
      AroundMore(c, done, i);
      var more := RedirsRead(c, done + [i], toks[2..]);
      items := [i] + more;
      assert done + [i] + more == done + items && items[1..] == more;
      TokensHead(items, Redirs(Around(c, done), toks).value.1);
    } else {
      items := [];
      assert done + items == done && toks == ItemTokens(items) + toks;
    }
  }

  // ---- the steps of the descent ----

  lemma BlockStep(body: seq<Token>, c: Cmd<string>, rest: seq<Token>)
    requires Line(body + ([Sym(')')] + rest)) == Some((c, [Sym(')')] + rest))
    ensures ExecOrBlock([Sym('(')] + body + [Sym(')')] + rest) == Redirs(c, rest)
  {
    hide Line, Redirs;
    var toks := [Sym('(')] + body + [Sym(')')] + rest;
    assert StartsWith(toks, "(") && toks[1..] == body + ([Sym(')')] + rest);
    assert StartsWith([Sym(')')] + rest, ")") && ([Sym(')')] + rest)[1..] == rest;
  }

  lemma SimpleStep(toks: seq<Token>)
    requires !StartsWith(toks, "(")
    ensures ExecOrBlock(toks) == Rest([], toks)
  {
    hide Redirs, Args;
  }

  lemma PipeStop(toks: seq<Token>, c: Cmd<string>, rest: seq<Token>)
    requires ExecOrBlock(toks) == Some((c, rest)) && !StartsWith(rest, "|")
    ensures Pipeline(toks) == Some((c, rest))
  {
    hide ExecOrBlock;
  }

  lemma PipeMore(toks: seq<Token>, c: Cmd<string>, more: seq<Token>, d: Cmd<string>, rest: seq<Token>)
    requires ExecOrBlock(toks) == Some((c, [Sym('|')] + more)) && Pipeline(more) == Some((d, rest))
    ensures Pipeline(toks) == Some((Pipe(c, d), rest))
  {
    hide ExecOrBlock;
    assert ([Sym('|')] + more)[1..] == more;
  }

  /** A pipeline and the '&'s after it. */
  function PipeBacks(toks: seq<Token>): Parsed {
    var p := Pipeline(toks);
    if p.None? then None else Some(Backs(p.value.0, p.value.1))
  }

  lemma BackMore(c: Cmd<string>, rest: seq<Token>)
    ensures Backs(c, [Sym('&')] + rest) == Backs(Back(c), rest)
  {
    assert ([Sym('&')] + rest)[1..] == rest;
  }

  lemma LineStop(toks: seq<Token>, c: Cmd<string>, rest: seq<Token>)
    requires PipeBacks(toks) == Some(Backs(c, rest)) && Ends(rest, ")")
    ensures Line(toks) == Some((c, rest))
  {
    hide Pipeline;
  }

  lemma LineMore(toks: seq<Token>, c: Cmd<string>, more: seq<Token>, d: Cmd<string>, rest: seq<Token>)
    requires PipeBacks(toks) == Some(Backs(c, [Sym(';')] + more)) && Line(more) == Some((d, rest))
    ensures Line(toks) == Some((List(c, d), rest))
  {
    hide Pipeline;
    assert ([Sym(';')] + more)[1..] == more;
  }

  lemma Follows(rest: seq<Token>)
    ensures Ends([Sym(')')] + rest, ")") && Ends([Sym(';')] + rest, "&);")
    ensures Ends([Sym('&')] + rest, "&);") && Ends([Sym('|')] + rest, "|)&;")
    ensures Ends(rest, ")") ==> Ends(rest, "&);")
    ensures Ends(rest, "&);") ==> Ends(rest, "|)&;") && !StartsWith(rest, "|")
    ensures Ends(rest, "|)&;") ==> !StartsWith(rest, "<>+") && !StartsWith(rest, "(")
  {
  }

  // ---- every text of the language is accepted, with its meaning ----

  lemma {:induction false} CommandAccepted(t: Text, rest: seq<Token>)
    requires IsCommand(t) && Ends(rest, "|)&;")
    ensures ExecOrBlock(Yield(t) + rest) == Some((Meaning(t), rest))
    decreases t, 0
  {
    hide ExecOrBlock, Redirs, Line, Ends, StartsWith, Rest, Around;
    Follows(rest);
    match t
    case Simple(items) =>
      NoBlock(items, rest);
      SimpleStep(Yield(t) + rest);
      assert [] + items == items;
      RestAccepts([], items, rest);
    case Block(body, redirs) =>
      var more := ItemTokens(redirs) + rest;
      Follows(more);
      LineAccepted(body, [Sym(')')] + more);
      BlockStep(Yield(body), Meaning(body), more);
      assert Yield(t) + rest == [Sym('(')] + Yield(body) + [Sym(')')] + more;
      assert [] + redirs == redirs;
      AroundNone(Meaning(body));
      RedirsAccept(Meaning(body), [], redirs, rest);
  }

  lemma AroundNone(c: Cmd<string>)
    ensures Around(c, []) == c
  {
  }

  lemma NoBlock(items: seq<Item>, rest: seq<Token>)
    requires !StartsWith(rest, "(") && Items(items)
    ensures !StartsWith(ItemTokens(items) + rest, "(")
  {
    if items != [] {
      assert items[0] in items;
    }
  }

  lemma {:induction false} PipelineAccepted(t: Text, rest: seq<Token>)
    requires IsPipeline(t) && Ends(rest, "&);")
    ensures Pipeline(Yield(t) + rest) == Some((Meaning(t), rest))
    decreases t, 1
  {
    hide ExecOrBlock, Pipeline, Ends, StartsWith;
    Follows(rest);
    if t.Piped? {
      var more := Yield(t.right) + rest;
      Follows(more);
      CommandAccepted(t.left, [Sym('|')] + more);
      PipelineAccepted(t.right, rest);
      assert Yield(t) + rest == Yield(t.left) + ([Sym('|')] + more);
      PipeMore(Yield(t) + rest, Meaning(t.left), more, Meaning(t.right), rest);
    } else {
      CommandAccepted(t, rest);
      PipeStop(Yield(t) + rest, Meaning(t), rest);
    }
  }

  lemma {:induction false} BacksAccepted(t: Text, rest: seq<Token>)
    requires IsBacks(t) && Ends(rest, "&);")
    ensures PipeBacks(Yield(t) + rest) == Some(Backs(Meaning(t), rest))
    decreases t, 2
  {
    hide Pipeline, Ends, StartsWith, Backs;
    Follows(rest);
    if t.Amp? {
      BacksAccepted(t.cmd, [Sym('&')] + rest);
      BackMore(Meaning(t.cmd), rest);
      assert Yield(t) + rest == Yield(t.cmd) + ([Sym('&')] + rest);
    } else {
      PipelineAccepted(t, rest);
    }
  }

  lemma {:induction false} LineAccepted(t: Text, rest: seq<Token>)
    requires IsLine(t) && Ends(rest, ")")
    ensures Line(Yield(t) + rest) == Some((Meaning(t), rest))
    decreases t, 3
  {
    hide Line, Ends, StartsWith, Backs, PipeBacks;
    Follows(rest);
    if t.Then? {
      var more := Yield(t.right) + rest;
      Follows(more);
      BacksAccepted(t.left, [Sym(';')] + more);
      LineAccepted(t.right, rest);
      assert Yield(t) + rest == Yield(t.left) + ([Sym(';')] + more);
      LineMore(Yield(t) + rest, Meaning(t.left), more, Meaning(t.right), rest);
    } else {
      BacksAccepted(t, rest);
      LineStop(Yield(t) + rest, Meaning(t), rest);
    }
  }

  // ---- what is accepted is a text of the language ----

  lemma {:induction false} CommandRead(toks: seq<Token>) returns (t: Text)
    requires ExecOrBlock(toks).Some?
    ensures IsCommand(t) && toks == Yield(t) + ExecOrBlock(toks).value.1 && Meaning(t) == ExecOrBlock(toks).value.0
    decreases |toks|, 0
  {
    hide Redirs, Line, Rest, Around, Args;
    if StartsWith(toks, "(") {
      var p := Line(toks[1..]);
      var body := LineRead(toks[1..]);
      AroundNone(Meaning(body));
      var redirs := RedirsRead(Meaning(body), [], p.value.1[1..]);
      t := Block(body, redirs);
      assert [] + redirs == redirs;
      BlockTokens(toks, Yield(body), p.value.1, ItemTokens(redirs), ExecOrBlock(toks).value.1);
    } else {
      SimpleStep(toks);
      var items := RestReads([], toks);
      assert [] + items == items;
      t := Simple(items);
    }
  }

  lemma BlockTokens(toks: seq<Token>, body: seq<Token>, more: seq<Token>, redirs: seq<Token>, rest: seq<Token>)
    requires toks != [] && toks[0] == Sym('(') && toks[1..] == body + more
    requires more != [] && more[0] == Sym(')') && more[1..] == redirs + rest
    ensures toks == [Sym('(')] + body + [Sym(')')] + redirs + rest
  {
    assert toks == [toks[0]] + toks[1..] && more == [more[0]] + more[1..];
  }

  lemma {:induction false} PipelineRead(toks: seq<Token>) returns (t: Text)
    requires Pipeline(toks).Some?
    ensures IsPipeline(t) && toks == Yield(t) + Pipeline(toks).value.1 && Meaning(t) == Pipeline(toks).value.0
    decreases |toks|, 1
  {
    hide ExecOrBlock;
    var p := ExecOrBlock(toks);
    t := CommandRead(toks);
    if StartsWith(p.value.1, "|") {
      var right := PipelineRead(p.value.1[1..]);
      Joined(toks, Yield(t), p.value.1, Yield(right), Pipeline(toks).value.1);
      t := Piped(t, right);
    }
  }

  lemma Joined(toks: seq<Token>, a: seq<Token>, more: seq<Token>, b: seq<Token>, rest: seq<Token>)
    requires toks == a + more && more != [] && more[1..] == b + rest
    ensures toks == a + [more[0]] + b + rest
  {
    assert more == [more[0]] + more[1..];
  }

  lemma AmpStep(toks: seq<Token>, done: Text, rest: seq<Token>)
    requires IsBacks(done) && toks == Yield(done) + rest && StartsWith(rest, "&")
    ensures IsBacks(Amp(done)) && toks == Yield(Amp(done)) + rest[1..]
    ensures Backs(Meaning(done), rest) == Backs(Meaning(Amp(done)), rest[1..])
  {
    assert rest == [Sym('&')] + rest[1..];
  }

  lemma {:induction false} BacksRead(toks: seq<Token>, done: Text, rest: seq<Token>) returns (t: Text)
    requires IsBacks(done) && toks == Yield(done) + rest
    ensures var r := Backs(Meaning(done), rest); IsBacks(t) && toks == Yield(t) + r.1 && Meaning(t) == r.0
    decreases |rest|
  {
    hide IsBacks, Yield, Meaning;
    t := done;
    if StartsWith(rest, "&") {
      hide Backs;
      AmpStep(toks, done, rest);
      t := BacksRead(toks, Amp(done), rest[1..]);
    }
  }

  lemma Levels(t: Text)
    ensures IsPipeline(t) ==> IsBacks(t)
    ensures IsBacks(t) ==> IsLine(t)
  {
    if t.Then? { assert !IsPipeline(t); }
    if t.Amp? { assert !IsCommand(t); }
  }

  lemma {:induction false} LineRead(toks: seq<Token>) returns (t: Text)
    requires Line(toks).Some?
    ensures IsLine(t) && toks == Yield(t) + Line(toks).value.1 && Meaning(t) == Line(toks).value.0
    decreases |toks|, 2
  {
    hide Pipeline, Backs;
    var p := Pipeline(toks);
    var pipe := PipelineRead(toks);
    Levels(pipe);
    t := BacksRead(toks, pipe, p.value.1);
    Levels(t);
    var q := Backs(p.value.0, p.value.1);
    if StartsWith(q.1, ";") {
      var right := LineRead(q.1[1..]);
      Joined(toks, Yield(t), q.1, Yield(right), Line(toks).value.1);
      t := Then(t, right);
    }
  }

  /** The text t of the language is what s says. */
  ghost predicate Writes(t: Text, s: string) { IsLine(t) && Yield(t) == Lex(s) }

  /** parsecmd() accepts exactly the lines of the language, and gives each its meaning. */
  lemma ParseExact(s: string, c: Cmd<string>)
    ensures Parse(s) == Some(c) <==> exists t :: Writes(t, s) && Meaning(t) == c
    ensures Parse(s) == None <==> !exists t :: Writes(t, s)
  {
    hide Line, IsLine, Yield, Lex, Meaning;
    forall t | Writes(t, s) ensures Parse(s) == Some(Meaning(t)) {
      assert Yield(t) + [] == Yield(t);
      LineAccepted(t, []);
    }
    if Parse(s).Some? {
      var t := LineRead(Lex(s));
      assert Yield(t) + [] == Yield(t);
      assert Writes(t, s) && Parse(s) == Some(Meaning(t));
    }
  }

  // ---- nothing is lost and nothing is left over ----

  /** A word, or an operator other than a parenthesis; ">>" is not one, since the tree does not tell it from ">". */
  predicate Kept(x: Token) { x.Word? || x.c in "<>|&;" }

  /** How often x is among the tokens, ">>" being ">". */
  function Count(toks: seq<Token>, x: Token): nat {
    if toks == [] then 0 else Same(toks[0], x) + Count(toks[1..], x)
  }

  function Same(tok: Token, x: Token): nat {
    if tok == x || (tok == Sym('+') && x == Sym('>')) then 1 else 0
  }

  /** How often x is a word, a file name or an operator of the tree. */
  function TreeCount(c: Cmd<string>, x: Token): nat {
    match c
    case Exec(argv) => WordCount(argv, x)
    case Redir(cmd, file, mode, fd) =>
      TreeCount(cmd, x) + Same(Sym(if fd == 0 then '<' else '>'), x) + Same(Word(file), x)
    case Pipe(left, right) => TreeCount(left, x) + Same(Sym('|'), x) + TreeCount(right, x)
    case List(left, right) => TreeCount(left, x) + Same(Sym(';'), x) + TreeCount(right, x)
    case Back(cmd) => TreeCount(cmd, x) + Same(Sym('&'), x)
  }

  function WordCount(ws: seq<string>, x: Token): nat {
    if ws == [] then 0 else WordCount(ws[..|ws| - 1], x) + Same(Word(ws[|ws| - 1]), x)
  }

  /** Every ")" closes a "(" before it; of m open ones at the start, the tokens leave n open. */
  predicate Closes(toks: seq<Token>, m: nat, n: nat) {
    if toks == [] then m == n
    else if toks[0] == Sym('(') then Closes(toks[1..], m + 1, n)
    else if toks[0] == Sym(')') then m > 0 && Closes(toks[1..], m - 1, n)
    else Closes(toks[1..], m, n)
  }

  lemma {:induction false} CountPlus(a: seq<Token>, b: seq<Token>, x: Token)
    ensures Count(a + b, x) == Count(a, x) + Count(b, x)
  {
    hide Same;
    if a == [] {
      assert a + b == b;
    } else {
      assert (a + b)[1..] == a[1..] + b;
      CountPlus(a[1..], b, x);
    }
  }

  lemma {:induction false} ClosesPlus(a: seq<Token>, b: seq<Token>, m: nat, k: nat, n: nat)
    requires Closes(a, m, k) && Closes(b, k, n)
    ensures Closes(a + b, m, n)
  {
    if a == [] {
      assert a + b == b;
    } else {
      assert (a + b)[1..] == a[1..] + b;
      ClosesPlus(a[1..], b, if a[0] == Sym('(') then m + 1 else if a[0] == Sym(')') then m - 1 else m, k, n);
    }
  }

  /** How often x is in the redirections among the items. */
  function RedirCount(items: seq<Item>, x: Token): nat {
    if items == [] then 0
    else
      RedirCount(items[..|items| - 1], x) +
      match items[|items| - 1]
      case Arg(_) => 0
      case To(op, file) => Same(Sym(if op == '<' then '<' else '>'), x) + Same(Word(file), x)
  }

  lemma {:induction false} AroundCount(c: Cmd<string>, items: seq<Item>, x: Token)
    ensures TreeCount(Around(c, items), x) == TreeCount(c, x) + RedirCount(items, x)
  {
    hide Same;
    if items != [] {
      AroundCount(c, items[..|items| - 1], x);
    }
  }

  lemma {:induction false} ItemsPlus(items: seq<Item>, i: Item)
    ensures ItemTokens(items + [i]) == ItemTokens(items) + ItemTokens([i])
  {
    if items == [] {
      assert items + [i] == [i];
    } else {
      assert (items + [i])[1..] == items[1..] + [i] && (items + [i])[0] == items[0];
      ItemsPlus(items[1..], i);
    }
  }

  lemma OneItem(i: Item, x: Token, m: nat)
    requires Kept(x) && (i.Arg? || IsRedir(i))
    ensures Count(ItemTokens([i]), x) ==
            if i.Arg? then Same(Word(i.w), x)
            else Same(Sym(if i.op == '<' then '<' else '>'), x) + Same(Word(i.file), x)
    ensures Closes(ItemTokens([i]), m, m)
  {
    if i.To? {
      assert ItemTokens([i]) == [Sym(i.op)] + [Word(i.file)];
      assert Same(Sym(i.op), x) == Same(Sym(if i.op == '<' then '<' else '>'), x);
      One(Sym(i.op), x, m);
      One(Word(i.file), x, m);
      CountPlus([Sym(i.op)], [Word(i.file)], x);
      ClosesPlus([Sym(i.op)], [Word(i.file)], m, m, m);
    } else {
      assert ItemTokens([i]) == [Word(i.w)];
      One(Word(i.w), x, m);
    }
  }

  lemma {:induction false} ItemsCount(items: seq<Item>, x: Token, m: nat)
    requires Kept(x) && Items(items)
    ensures Count(ItemTokens(items), x) == WordCount(Argv(items), x) + RedirCount(items, x)
    ensures Closes(ItemTokens(items), m, m)
  {
    hide Same, Kept, Count, Closes;
    if items == [] {
      Nothing(x, m);
    } else {
      var front, i := items[..|items| - 1], items[|items| - 1];
      assert items == front + [i];
      ItemsCount(front, x, m);
      ItemsPlus(front, i);
      OneItem(i, x, m);
      CountPlus(ItemTokens(front), ItemTokens([i]), x);
      ClosesPlus(ItemTokens(front), ItemTokens([i]), m, m, m);
      assert Argv(items) == Argv(front) + if i.Arg? then [i.w] else [];
      assert i.Arg? ==> Argv(items)[..|Argv(items)| - 1] == Argv(front);
      assert i.To? ==> Argv(items) == Argv(front);
    }
  }

  lemma Nothing(x: Token, m: nat)
    ensures Count([], x) == 0 && Closes([], m, m)
  {
  }

  lemma One(tok: Token, x: Token, m: nat)
    ensures Count([tok], x) == Same(tok, x)
    ensures tok == Sym('(') ==> Closes([tok], m, m + 1)
    ensures tok == Sym(')') ==> Closes([tok], m + 1, m)
    ensures tok != Sym('(') && tok != Sym(')') ==> Closes([tok], m, m)
  {
    hide Same;
    assert [tok][1..] == [];
  }

  /** Two parts and the operator between them. */
  lemma InfixCount(a: seq<Token>, c: char, b: seq<Token>, x: Token, m: nat)
    requires c in "|;&" && Closes(a, m, m) && Closes(b, m, m)
    ensures Count(a + [Sym(c)] + b, x) == Count(a, x) + Same(Sym(c), x) + Count(b, x)
    ensures Closes(a + [Sym(c)] + b, m, m)
  {
    hide Same, Count, Closes;
    One(Sym(c), x, m);
    CountPlus(a, [Sym(c)], x);
    CountPlus(a + [Sym(c)], b, x);
    ClosesPlus(a, [Sym(c)], m, m, m);
    ClosesPlus(a + [Sym(c)], b, m, m, m);
  }

  lemma BlockCount(a: seq<Token>, b: seq<Token>, x: Token, m: nat)
    requires Kept(x) && Closes(a, m + 1, m + 1) && Closes(b, m, m)
    ensures Count([Sym('(')] + a + [Sym(')')] + b, x) == Count(a, x) + Count(b, x)
    ensures Closes([Sym('(')] + a + [Sym(')')] + b, m, m)
  {
    hide Count, Closes;
    var open, close := [Sym('(')], [Sym(')')];
    One(Sym('('), x, m);
    One(Sym(')'), x, m);
    CountPlus(open, a, x);
    CountPlus(open + a, close, x);
    CountPlus(open + a + close, b, x);
    ClosesPlus(open, a, m, m + 1, m + 1);
    ClosesPlus(open + a, close, m, m + 1, m);
    ClosesPlus(open + a + close, b, m, m, m);
  }

  lemma {:induction false} TextCount(t: Text, x: Token, m: nat)
    requires Kept(x) && AllItems(t)
    ensures Count(Yield(t), x) == TreeCount(Meaning(t), x) && Closes(Yield(t), m, m)
  {
    hide Count, Closes, Around, Argv, RedirCount, Same, Kept, ItemTokens;
    match t
    case Simple(items) =>
      ItemsCount(items, x, m);
      AroundCount(Exec(Argv(items)), items, x);
    case Block(body, redirs) =>
      TextCount(body, x, m + 1);
      ItemsCount(redirs, x, m);
      NoWords(redirs);
      AroundCount(Meaning(body), redirs, x);
      BlockCount(Yield(body), ItemTokens(redirs), x, m);
    case Piped(left, right) =>
      TextCount(left, x, m);
      TextCount(right, x, m);
      InfixCount(Yield(left), '|', Yield(right), x, m);
    case Amp(cmd) =>
      TextCount(cmd, x, m);
      Nothing(x, m);
      InfixCount(Yield(cmd), '&', [], x, m);
      assert Yield(cmd) + [Sym('&')] + [] == Yield(cmd) + [Sym('&')];
    case Then(left, right) =>
      TextCount(left, x, m);
      TextCount(right, x, m);
      InfixCount(Yield(left), ';', Yield(right), x, m);
  }

  lemma {:induction false} NoWords(items: seq<Item>)
    requires OnlyRedirs(items)
    ensures Argv(items) == []
  {
    if items != [] {
      NoWords(items[..|items| - 1]);
      assert items[|items| - 1] in items;
    }
  }

  /** The items of a text are words and redirections, after a block redirections only, and few enough words. */
  predicate AllItems(t: Text) {
    match t
    case Simple(items) => |Argv(items)| < 10 && Items(items)
    case Block(body, redirs) => AllItems(body) && OnlyRedirs(redirs)
    case Piped(left, right) => AllItems(left) && AllItems(right)
    case Amp(cmd) => AllItems(cmd)
    case Then(left, right) => AllItems(left) && AllItems(right)
  }

  lemma {:induction false} LineItems(t: Text)
    ensures IsCommand(t) ==> AllItems(t)
    ensures IsPipeline(t) ==> AllItems(t)
    ensures IsBacks(t) ==> AllItems(t)
    ensures IsLine(t) ==> AllItems(t)
  {
    match t
    case Simple(_) =>
    case Block(body, _) => LineItems(body);
    case Piped(left, right) =>
      LineItems(left);
      LineItems(right);
    case Amp(cmd) => LineItems(cmd);
    case Then(left, right) =>
      LineItems(left);
      LineItems(right);
  }

  /**
   * No token of an accepted line is dropped, repeated or left over: the words, file names and operators of the
   * tree are those of the line, and every parenthesis has its partner.
   */
  lemma ParseUsesAll(s: string)
    requires Parse(s).Some?
    ensures forall x | Kept(x) :: Count(Lex(s), x) == TreeCount(Parse(s).value, x)
    ensures Closes(Lex(s), 0, 0)
  {
    hide Line, IsLine, Yield, Lex, Meaning, Count, TreeCount, Closes;
    var t := LineRead(Lex(s));
    assert Yield(t) + [] == Yield(t);
    LineItems(t);
    TextCount(t, Word(""), 0);
    forall x | Kept(x) ensures Count(Lex(s), x) == TreeCount(Parse(s).value, x) {
      TextCount(t, x, 0);
    }
  }
}
