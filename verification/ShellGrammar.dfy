/**
 * The shell's command language: tokens, the grammar that sh.c's recursive descent accepts, and a printer
 * for command trees.  Parsing the printed text of a tree gives the tree back.
 */
module ShellGrammar {
  import opened Wrappers

  const O_RDONLY: nat := 0
  const O_WRONLY: nat := 1
  const O_CREATE: nat := 0x200
  const MAXARGS: nat := 10

  /** Command trees, over words of type W. */
  datatype Cmd<W> =
    | Exec(argv: seq<W>)
    | Redir(cmd: Cmd<W>, file: W, mode: nat, fd: nat)
    | Pipe(left: Cmd<W>, right: Cmd<W>)
    | List(left: Cmd<W>, right: Cmd<W>)
    | Back(cmd: Cmd<W>)

  /** Sym('+') is ">>"; every other symbol stands for itself. */
  datatype Token = Sym(c: char) | Word(w: string)

  // ---- characters and tokens ----

  predicate IsSpace(c: char) { c in " \t\r\n\U{0B}" }

  predicate IsSymbol(c: char) { c in "<|>&;()" }

  predicate InWord(c: char) { !IsSpace(c) && !IsSymbol(c) }

  /** The length of the longest prefix of spaces. */
  function SpaceLength(s: string): (n: nat)
    ensures n <= |s| && (n < |s| ==> !IsSpace(s[n]))
  {
    if s != [] && IsSpace(s[0]) then 1 + SpaceLength(s[1..]) else 0
  }

  /** The length of the longest prefix of word characters. */
  function WordLength(s: string): (n: nat)
    ensures n <= |s| && (forall k | 0 <= k < n :: InWord(s[k])) && (n < |s| ==> !InWord(s[n]))
  {
    if s != [] && InWord(s[0]) then 1 + WordLength(s[1..]) else 0
  }

  /** The first token of s, which starts with no space, and its length. */
  function FirstToken(s: string): (r: (Token, nat))
    requires s != [] && !IsSpace(s[0])
    ensures 0 < r.1 <= |s|
  {
    if |s| >= 2 && s[0] == '>' && s[1] == '>' then (Sym('+'), 2)
    else if IsSymbol(s[0]) then (Sym(s[0]), 1)
    else (Word(s[..WordLength(s)]), WordLength(s))
  }

  function Lex(s: string): seq<Token>
    decreases |s|
  {
    var t := s[SpaceLength(s)..];
    if t == [] then [] else [FirstToken(t).0] + Lex(t[FirstToken(t).1..])
  }

  // ---- the grammar ----

  predicate StartsWith(toks: seq<Token>, cs: string) { toks != [] && toks[0].Sym? && toks[0].c in cs }

  function Mode(c: char): nat { if c == '<' then O_RDONLY else O_WRONLY + O_CREATE }

  function Fd(c: char): nat { if c == '<' then 0 else 1 }

  /** Store a word in the EXEC node inside redirections. */
  function AddArg<W>(c: Cmd<W>, w: W): Cmd<W> {
    match c
    case Exec(argv) => Exec(argv + [w])
    case Redir(cmd, file, mode, fd) => Redir(AddArg(cmd, w), file, mode, fd)
    case _ => c
  }

  type Parsed = Option<(Cmd<string>, seq<Token>)>

  /** Redirections around c. */
  function Redirs(c: Cmd<string>, toks: seq<Token>): (r: Parsed)
    ensures r.Some? ==> |r.value.1| <= |toks|
    decreases |toks|
  {
    if !StartsWith(toks, "<>+") then Some((c, toks))
    else if |toks| < 2 || !toks[1].Word? then None
    else Redirs(Redir(c, toks[1].w, Mode(toks[0].c), Fd(toks[0].c)), toks[2..])
  }

  /** Words and redirections, argc words having been read into c. */
  function Args(c: Cmd<string>, argc: nat, toks: seq<Token>): (r: Parsed)
    ensures r.Some? ==> |r.value.1| <= |toks|
    decreases |toks|
  {
    if toks == [] || StartsWith(toks, "|)&;") then Some((c, toks))
    else if !toks[0].Word? || argc + 1 >= MAXARGS then None
    else
      var p := Redirs(AddArg(c, toks[0].w), toks[1..]);
      if p.None? then None else Args(p.value.0, argc + 1, p.value.1)
  }

  function ExecOrBlock(toks: seq<Token>): (r: Parsed)
    ensures r.Some? ==> |r.value.1| <= |toks|
    decreases |toks|, 0
  {
    if StartsWith(toks, "(") then
      var p := Line(toks[1..]);
      if p.None? || !StartsWith(p.value.1, ")") then None else Redirs(p.value.0, p.value.1[1..])
    else
      var p := Redirs(Exec([]), toks);
      if p.None? then None else Args(p.value.0, 0, p.value.1)
  }

  function Pipeline(toks: seq<Token>): (r: Parsed)
    ensures r.Some? ==> |r.value.1| <= |toks|
    decreases |toks|, 1
  {
    var p := ExecOrBlock(toks);
    if p.None? || !StartsWith(p.value.1, "|") then p
    else
      var q := Pipeline(p.value.1[1..]);
      if q.None? then None else Some((Pipe(p.value.0, q.value.0), q.value.1))
  }

  function Backs(c: Cmd<string>, toks: seq<Token>): (r: (Cmd<string>, seq<Token>))
    ensures |r.1| <= |toks|
    decreases |toks|
  {
    if StartsWith(toks, "&") then Backs(Back(c), toks[1..]) else (c, toks)
  }

  function Line(toks: seq<Token>): (r: Parsed)
    ensures r.Some? ==> |r.value.1| <= |toks|
    decreases |toks|, 2
  {
    var p := Pipeline(toks);
    if p.None? then None
    else
      var q := Backs(p.value.0, p.value.1);
      if !StartsWith(q.1, ";") then Some(q)
      else
        var l := Line(q.1[1..]);
        if l.None? then None else Some((List(q.0, l.value.0), l.value.1))
  }

  /** The command a text denotes; None is a panic. */
  function Parse(s: string): Option<Cmd<string>> {
    var p := Line(Lex(s));
    if p.Some? && p.value.1 == [] then Some(p.value.0) else None
  }

  // ---- the trees of the language ----

  predicate GoodWord(w: string) { w != [] && forall k | 0 <= k < |w| :: InWord(w[k]) }

  /** The trees sh.c can build: words of word characters, at most 9 to an EXEC, and its two kinds of redirection. */
  predicate Good(t: Cmd<string>) {
    match t
    case Exec(argv) => |argv| < MAXARGS && forall w | w in argv :: GoodWord(w)
    case Redir(cmd, file, mode, fd) =>
      Good(cmd) && GoodWord(file) && ((mode == O_RDONLY && fd == 0) || (mode == O_WRONLY + O_CREATE && fd == 1))
    case Pipe(left, right) => Good(left) && Good(right)
    case List(left, right) => Good(left) && Good(right)
    case Back(cmd) => Good(cmd)
  }

  // ---- the printer ----

  function Words(argv: seq<string>): seq<Token> {
    if argv == [] then [] else [Word(argv[0])] + Words(argv[1..])
  }

  function RedirTokens(file: string, fd: nat): seq<Token> { [Sym(if fd == 0 then '<' else '>'), Word(file)] }

  /** A pipeline, list or background command without parentheses. */
  function BodyTokens(t: Cmd<string>): seq<Token>
    requires t.Pipe? || t.List? || t.Back?
    decreases t, 0
  {
    match t
    case Pipe(left, right) => ExecTokens(left) + [Sym('|')] + PipeTokens(right)
    case List(left, right) => BackTokens(left) + [Sym(';')] + LineTokens(right)
    case Back(cmd) => BackTokens(cmd) + [Sym('&')]
  }

  /** Where one command is expected, everything but a simple command is in parentheses. */
  function ExecTokens(t: Cmd<string>): seq<Token>
    decreases t, 1
  {
    match t
    case Exec(argv) => Words(argv)
    case Redir(cmd, file, mode, fd) => ExecTokens(cmd) + RedirTokens(file, fd)
    case _ => [Sym('(')] + BodyTokens(t) + [Sym(')')]
  }

  function PipeTokens(t: Cmd<string>): seq<Token>
    decreases t, 2
  {
    if t.Pipe? then BodyTokens(t) else ExecTokens(t)
  }

  function BackTokens(t: Cmd<string>): seq<Token>
    decreases t, 3
  {
    if t.Back? then BodyTokens(t) else PipeTokens(t)
  }

  function LineTokens(t: Cmd<string>): seq<Token>
    decreases t, 4
  {
    if t.List? then BodyTokens(t) else BackTokens(t)
  }

  /** Every token is followed by a space. */
  function Render(toks: seq<Token>): string {
    if toks == [] then ""
    else (match toks[0] case Sym(c) => [c] case Word(w) => w) + " " + Render(toks[1..])
  }

  function Print(t: Cmd<string>): string { Render(LineTokens(t)) }
}
