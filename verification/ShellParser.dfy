/** sh.c's tokenizer and recursive-descent parser over a cursor, and nulterminate() in the input buffer. */
module ShellParser {
  import opened Wrappers
  import opened ShellGrammar

  /** A token in the input: its first character and the one after its last. */
  datatype Span = Span(q: nat, eq: nat)

  // ---- what spans stand for ----

  function Text(s: string, sp: Span): string { if sp.q <= sp.eq <= |s| then s[sp.q..sp.eq] else "" }

  function Texts(s: string, argv: seq<Span>): seq<string> {
    if argv == [] then [] else Texts(s, argv[..|argv| - 1]) + [Text(s, argv[|argv| - 1])]
  }

  /** The tree with the text of every span. */
  function Read(s: string, c: Cmd<Span>): Cmd<string> {
    match c
    case Exec(argv) => Exec(Texts(s, argv))
    case Redir(cmd, file, mode, fd) => Redir(Read(s, cmd), Text(s, file), mode, fd)
    case Pipe(left, right) => Pipe(Read(s, left), Read(s, right))
    case List(left, right) => List(Read(s, left), Read(s, right))
    case Back(cmd) => Back(Read(s, cmd))
  }

  /** A whole word of the input: word characters only, and none follows. */
  predicate IsToken(s: string, sp: Span) {
    && sp.q < sp.eq <= |s| && (forall k | sp.q <= k < sp.eq :: InWord(s[k]))
    && (sp.eq < |s| ==> !InWord(s[sp.eq]))
  }

  predicate Tokens(s: string, c: Cmd<Span>) {
    match c
    case Exec(argv) => forall k | 0 <= k < |argv| :: IsToken(s, argv[k])
    case Redir(cmd, file, _, _) => Tokens(s, cmd) && IsToken(s, file)
    case Pipe(left, right) => Tokens(s, left) && Tokens(s, right)
    case List(left, right) => Tokens(s, left) && Tokens(s, right)
    case Back(cmd) => Tokens(s, cmd)
  }

  lemma {:induction false} AddArgRead(s: string, c: Cmd<Span>, sp: Span)
    requires Tokens(s, c) && IsToken(s, sp)
    ensures Read(s, AddArg(c, sp)) == AddArg(Read(s, c), Text(s, sp)) && Tokens(s, AddArg(c, sp))
  {
    match c
    case Exec(argv) => assert (argv + [sp])[..|argv|] == argv;
    case Redir(cmd, _, _, _) => AddArgRead(s, cmd, sp);
    case _ =>
  }

  lemma NoArgs(s: string)
    ensures Read(s, Exec([])) == Exec([]) && Tokens(s, Exec([]))
  {
  }

  lemma ArgsStep(c: Cmd<string>, argc: nat, toks: seq<Token>)
    ensures toks == [] || StartsWith(toks, "|)&;") ==> Args(c, argc, toks) == Some((c, toks))
    ensures toks != [] && !StartsWith(toks, "|)&;") && (toks[0].Sym? || argc + 1 >= MAXARGS) ==>
            Args(c, argc, toks) == None
    ensures toks != [] && toks[0].Word? && argc + 1 < MAXARGS ==>
              var p := Redirs(AddArg(c, toks[0].w), toks[1..]);
              Args(c, argc, toks) == if p.None? then None else Args(p.value.0, argc + 1, p.value.1)
  {
  }

  lemma BacksStep(c: Cmd<string>, toks: seq<Token>)
    ensures Backs(c, toks) == if StartsWith(toks, "&") then Backs(Back(c), toks[1..]) else (c, toks)
  {
  }

  // ---- the tokens from a position on ----

  function SkipFrom(s: string, p: nat): (e: nat)
    requires p <= |s|
    ensures p <= e <= |s| && (e < |s| ==> !IsSpace(s[e]))
  {
    p + SpaceLength(s[p..])
  }

  lemma SkipStep(s: string, p: nat)
    requires p < |s| && IsSpace(s[p])
    ensures SkipFrom(s, p + 1) == SkipFrom(s, p)
  {
    assert s[p..][1..] == s[p + 1..];
  }

  /** The tokens from p on are those from the next character that is no space. */
  lemma LexSkip(s: string, p: nat)
    requires p <= |s|
    ensures SkipFrom(s, SkipFrom(s, p)) == SkipFrom(s, p) && Lex(s[SkipFrom(s, p)..]) == Lex(s[p..])
  {
    var e := SkipFrom(s, p);
    assert s[p..][SpaceLength(s[p..])..] == s[e..];
    assert s[e..][0..] == s[e..];
  }

  lemma LexHere(s: string, p: nat)
    requires p <= |s| && (p < |s| ==> !IsSpace(s[p]))
    ensures p == |s| ==> Lex(s[p..]) == []
    ensures p < |s| ==> Lex(s[p..]) == [FirstToken(s[p..]).0] + Lex(s[p + FirstToken(s[p..]).1..])
  {
    assert s[p..][0..] == s[p..];
    if p < |s| {
      assert s[p..][FirstToken(s[p..]).1..] == s[p + FirstToken(s[p..]).1..];
    }
  }

  /** A symbol at q is the first token from q on. */
  lemma SymbolHere(s: string, q: nat)
    requires q < |s| && IsSymbol(s[q])
    ensures var double := s[q] == '>' && q + 1 < |s| && s[q + 1] == '>';
            var next := if double then q + 2 else q + 1;
            && Lex(s[q..]) == [Sym(if double then '+' else s[q])] + Lex(s[next..])
            && s[q] != 'a' && s[q] != '\0'
  {
    LexHere(s, q);
    var t := s[q..];
    assert t[0] == s[q] && (|t| >= 2 ==> t[1] == s[q + 1]);
  }

  /** The word characters from q to e are the first token from q on. */
  lemma WordHere(s: string, q: nat, e: nat)
    requires q < e <= |s| && (forall k | q <= k < e :: InWord(s[k])) && (e < |s| ==> !InWord(s[e]))
    ensures Lex(s[q..]) == [Word(s[q..e])] + Lex(s[e..])
  {
    hide Lex, FirstToken, IsSpace, IsSymbol, WordLength;
    assert InWord(s[q]);
    LexHere(s, q);
    WordStep(s, q, e);
    var t := s[q..];
    FirstWord(t);
    assert t[..e - q] == s[q..e];
  }

  lemma FirstWord(t: string)
    requires t != [] && InWord(t[0])
    ensures FirstToken(t) == (Word(t[..WordLength(t)]), WordLength(t))
  {
  }

  lemma WordStep(s: string, q: nat, e: nat)
    requires q <= e <= |s| && (forall k | q <= k < e :: InWord(s[k])) && (e < |s| ==> !InWord(s[e]))
    ensures WordLength(s[q..]) == e - q
  {
    var t := s[q..];
    assert forall k | 0 <= k < e - q :: t[k] == s[q + k];
    assert e < |s| ==> t[e - q] == s[e];
  }

  /** The character a symbol token starts with. */
  function FirstChar(c: char): char { if c == '+' then '>' else c }

  lemma PeekHere(s: string, p: nat)
    requires p <= |s| && (p < |s| ==> !IsSpace(s[p]))
    ensures Lex(s[p..]) == [] <==> p == |s|
    ensures p < |s| ==> (IsSymbol(s[p]) <==> Lex(s[p..])[0].Sym?)
    ensures p < |s| && IsSymbol(s[p]) ==> FirstChar(Lex(s[p..])[0].c) == s[p]
  {
    LexHere(s, p);
    if p < |s| {
      var t := s[p..];
      assert t[0] == s[p];
    }
  }

  class Parser {
    const s: string
    var pos: nat

    predicate Valid()
      reads this
    {
      pos <= |s| && '\0' !in s
    }

    function Rest(): seq<Token>
      requires Valid()
      reads this
    {
      Lex(s[pos..])
    }

    constructor (s: string)
      requires '\0' !in s
      ensures Valid() && this.s == s && pos == 0
    {
      this.s, pos := s, 0;
    }

    method SkipSpaces(p: nat) returns (e: nat)
      requires Valid() && p <= |s|
      ensures e == SkipFrom(s, p)
    {
      e := p;
      while e < |s| && IsSpace(s[e])
        invariant p <= e <= |s| && SkipFrom(s, e) == SkipFrom(s, p)
      {
        SkipStep(s, e);
        e := e + 1;
      }
      assert SpaceLength(s[e..]) == 0;
    }

    method Gettoken() returns (tok: char, q: nat, eq: nat)
      requires Valid()
      modifies this`pos
      ensures Valid()
      ensures old(Rest()) == [] ==> tok == '\0' && Rest() == []
      ensures old(Rest()) != [] ==> Rest() == old(Rest())[1..]
      ensures old(Rest()) != [] && old(Rest())[0].Sym? ==> tok == old(Rest())[0].c && tok != 'a' && tok != '\0'
      ensures old(Rest()) != [] && old(Rest())[0].Word? ==>
                tok == 'a' && IsToken(s, Span(q, eq)) && Text(s, Span(q, eq)) == old(Rest())[0].w
    {
      hide Lex, IsSymbol;
      LexSkip(s, pos);
      q := SkipSpaces(pos);
      eq := q;
      if q == |s| {
        LexHere(s, q);
        tok := '\0';
      } else if IsSymbol(s[q]) {
        SymbolHere(s, q);
        tok := s[q];
        eq := q + 1;
        if tok == '>' && eq < |s| && s[eq] == '>' {
          tok := '+';
          eq := eq + 1;
        }
      } else {
        tok := 'a';
        while eq < |s| && InWord(s[eq])
          invariant q <= eq <= |s| && (forall k | q <= k < eq :: InWord(s[k]))
        {
          eq := eq + 1;
        }
        WordHere(s, q, eq);
      }
      LexSkip(s, eq);
      pos := SkipSpaces(eq);
    }

    method Peek(cs: string) returns (r: bool)
      requires Valid() && forall c | c in cs :: IsSymbol(c)
      modifies this`pos
      ensures Valid() && Rest() == old(Rest()) && (pos == |s| <==> Rest() == [])
      ensures r <==> Rest() != [] && Rest()[0].Sym? && FirstChar(Rest()[0].c) in cs
    {
      hide Lex, FirstToken;
      LexSkip(s, pos);
      pos := SkipSpaces(pos);
      PeekHere(s, pos);
      r := pos < |s| && s[pos] in cs;
    }

    /** r is what the grammar gives for the tokens before, and the cursor is at its remaining tokens. */
    ghost predicate Agrees(r: Option<Cmd<Span>>, p: Parsed)
      reads this
    {
      && (r.Some? <==> p.Some?)
      && (r.Some? ==> Valid() && Tokens(s, r.value) && Read(s, r.value) == p.value.0 && Rest() == p.value.1)
    }

    method Parseredirs(cmd: Cmd<Span>) returns (r: Option<Cmd<Span>>)
      requires Valid() && Tokens(s, cmd)
      modifies this`pos
      ensures Agrees(r, Redirs(Read(s, cmd), old(Rest())))
    {
      hide Lex, IsToken, Text;
      var c := cmd;
      var more := Peek("<>");
      while more
        invariant Valid() && Tokens(s, c) && (more <==> StartsWith(Rest(), "<>+"))
        invariant Redirs(Read(s, c), Rest()) == Redirs(Read(s, cmd), old(Rest()))
        decreases |Rest()|
      {
        var tok, _, _ := Gettoken();
        var tok', q, eq := Gettoken();
        if tok' != 'a' {
          return None;
        }
        c := match tok
          case '<' => Redir(c, Span(q, eq), O_RDONLY, 0)
          case '>' => Redir(c, Span(q, eq), O_WRONLY + O_CREATE, 1)
          case _ => Redir(c, Span(q, eq), O_WRONLY + O_CREATE, 1);
        more := Peek("<>");
      }
      return Some(c);
    }

    method Parseblock() returns (r: Option<Cmd<Span>>)
      requires Valid() && StartsWith(Rest(), "(")
      modifies this`pos
      ensures Agrees(r, ExecOrBlock(old(Rest())))
      decreases |Rest()|, 0
    {
      hide Lex, Line, Redirs;
      var _, _, _ := Gettoken();
      r := Parseline();
      if r.None? {
        return;
      }
      var closed := Peek(")");
      if !closed {
        return None;
      }
      var _, _, _ := Gettoken();
      r := Parseredirs(r.value);
    }

    method Parseexec() returns (r: Option<Cmd<Span>>)
      requires Valid()
      modifies this`pos
      ensures Agrees(r, ExecOrBlock(old(Rest())))
      decreases |Rest()|, 1
    {
      hide Lex, Line, Redirs, IsToken, Text, Args, Read, Tokens;
      NoArgs(s);
      var open := Peek("(");
      if open {
        r := Parseblock();
        return;
      }
      r := Parseredirs(Exec([]));
      if r.None? {
        return;
      }
      ghost var p := Redirs(Exec([]), old(Rest()));
      var argc := 0;
      var stop := Peek("|)&;");
      while !stop
        invariant r.Some? && Valid() && Tokens(s, r.value) && (stop <==> StartsWith(Rest(), "|)&;"))
        invariant Args(Read(s, r.value), argc, Rest()) == Args(p.value.0, 0, p.value.1)
        decreases |Rest()|, !stop
      {
        ArgsStep(Read(s, r.value), argc, Rest());
        var tok, q, eq := Gettoken();
        if tok == '\0' {
          break;
        }
        if tok != 'a' {
          return None;
        }
        AddArgRead(s, r.value, Span(q, eq));
        r := Some(AddArg(r.value, Span(q, eq)));
        argc := argc + 1;
        if argc >= MAXARGS {
          return None;
        }
        r := Parseredirs(r.value);
        if r.None? {
          return;
        }
        stop := Peek("|)&;");
      }
      ArgsStep(Read(s, r.value), argc, Rest());
    }

    method Parsepipe() returns (r: Option<Cmd<Span>>)
      requires Valid()
      modifies this`pos
      ensures Agrees(r, Pipeline(old(Rest())))
      decreases |Rest()|, 2
    {
      hide Lex, ExecOrBlock;
      r := Parseexec();
      if r.None? {
        return;
      }
      var more := Peek("|");
      if more {
        var left := r.value;
        var _, _, _ := Gettoken();
        r := Parsepipe();
        if r.Some? {
          r := Some(Pipe(left, r.value));
        }
      }
    }

    method Parseline() returns (r: Option<Cmd<Span>>)
      requires Valid()
      modifies this`pos
      ensures Agrees(r, Line(old(Rest())))
      decreases |Rest()|, 3
    {
      hide Lex, Pipeline, Backs;
      r := Parsepipe();
      if r.None? {
        return;
      }
      ghost var p := Pipeline(old(Rest())).value;
      var c := r.value;
      var more := Peek("&");
      while more
        invariant Valid() && Tokens(s, c) && (more <==> StartsWith(Rest(), "&"))
        invariant Backs(Read(s, c), Rest()) == Backs(p.0, p.1)
        decreases |Rest()|
      {
        BacksStep(Read(s, c), Rest());
        var _, _, _ := Gettoken();
        c := Back(c);
        more := Peek("&");
      }
      BacksStep(Read(s, c), Rest());
      more := Peek(";");
      if more {
        var _, _, _ := Gettoken();
        r := Parseline();
        if r.Some? {
          r := Some(List(c, r.value));
        }
      } else {
        r := Some(c);
      }
    }
  }
}
