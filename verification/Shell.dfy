/** parsecmd(): the parsed tree, read as C strings out of the terminated buffer, is the command of the grammar. */
module Shell {
  import opened Wrappers
  import opened ShellGrammar
  import opened ShellParser
  import Language = ShellLanguage
  import opened ShellRoundTrip

  /** The characters from q up to the first NUL. */
  function CString(b: seq<char>, q: nat): string
    decreases |b| - q
  {
    if q < |b| && b[q] != '\0' then [b[q]] + CString(b, q + 1) else ""
  }

  function CStrings(b: seq<char>, argv: seq<Span>): seq<string> {
    if argv == [] then [] else CStrings(b, argv[..|argv| - 1]) + [CString(b, argv[|argv| - 1].q)]
  }

  /** The tree that a reader of the char pointers sees. */
  function CRead(b: seq<char>, c: Cmd<Span>): Cmd<string> {
    match c
    case Exec(argv) => Exec(CStrings(b, argv))
    case Redir(cmd, file, mode, fd) => Redir(CRead(b, cmd), CString(b, file.q), mode, fd)
    case Pipe(left, right) => Pipe(CRead(b, left), CRead(b, right))
    case List(left, right) => List(CRead(b, left), CRead(b, right))
    case Back(cmd) => Back(CRead(b, cmd))
  }

  /** The positions nulterminate() writes to. */
  ghost function EndSet(c: Cmd<Span>): set<nat> {
    match c
    case Exec(argv) => set k | 0 <= k < |argv| :: argv[k].eq
    case Redir(cmd, file, _, _) => EndSet(cmd) + {file.eq}
    case Pipe(left, right) => EndSet(left) + EndSet(right)
    case List(left, right) => EndSet(left) + EndSet(right)
    case Back(cmd) => EndSet(cmd)
  }

  method Nulterminate(buf: array<char>, c: Cmd<Span>)
    requires forall e | e in EndSet(c) :: e < buf.Length
    modifies buf
    ensures forall k: nat | k < buf.Length :: buf[k] == if k in EndSet(c) then '\0' else old(buf[k])
    decreases c
  {
    match c
    case Exec(argv) =>
      var i := 0;
      while i < |argv|
        invariant 0 <= i <= |argv|
        invariant forall k: nat | k < buf.Length ::
                    buf[k] == if exists j :: 0 <= j < i && argv[j].eq == k then '\0' else old(buf[k])
      {
        assert argv[i].eq in EndSet(c);
        buf[argv[i].eq] := '\0';
        i := i + 1;
      }
    case Redir(cmd, file, _, _) =>
      assert EndSet(cmd) <= EndSet(c) && file.eq in EndSet(c);
      Nulterminate(buf, cmd);
      buf[file.eq] := '\0';
    case Pipe(left, right) =>
      assert EndSet(left) <= EndSet(c) && EndSet(right) <= EndSet(c);
      Nulterminate(buf, left);
      Nulterminate(buf, right);
    case List(left, right) =>
      assert EndSet(left) <= EndSet(c) && EndSet(right) <= EndSet(c);
      Nulterminate(buf, left);
      Nulterminate(buf, right);
    case Back(cmd) =>
      assert EndSet(cmd) == EndSet(c);
      Nulterminate(buf, cmd);
  }

  // ---- no terminator lands inside a token ----

  /** Terminators are written just past tokens: at the end, or on a space or symbol. */
  ghost predicate OutsideWords(s: string, ends: set<nat>) {
    forall e | e in ends :: e <= |s| && (e < |s| ==> !InWord(s[e]))
  }

  lemma {:induction false} TokensOutside(s: string, c: Cmd<Span>)
    requires Tokens(s, c)
    ensures OutsideWords(s, EndSet(c))
  {
    match c
    case Exec(argv) => assert forall k | 0 <= k < |argv| :: IsToken(s, argv[k]);
    case Redir(cmd, _, _, _) => TokensOutside(s, cmd);
    case Pipe(left, right) => TokensOutside(s, left); TokensOutside(s, right);
    case List(left, right) => TokensOutside(s, left); TokensOutside(s, right);
    case Back(cmd) => TokensOutside(s, cmd);
  }

  /** b is the input s with NULs at ends. */
  ghost predicate Terminated(s: string, b: seq<char>, ends: set<nat>) {
    && |s| < |b| && (forall k: nat | k < |s| :: b[k] == if k in ends then '\0' else s[k])
    && (forall e | e in ends :: e < |b| && b[e] == '\0')
  }

  lemma {:induction false} CStringIs(b: seq<char>, q: nat, e: nat)
    requires q <= e < |b| && b[e] == '\0' && forall k | q <= k < e :: b[k] != '\0'
    ensures CString(b, q) == b[q..e]
    decreases e - q
  {
    if q < e {
      CStringIs(b, q + 1, e);
    }
  }

  lemma TokenReads(s: string, b: seq<char>, ends: set<nat>, sp: Span)
    requires '\0' !in s && OutsideWords(s, ends) && Terminated(s, b, ends) && IsToken(s, sp) && sp.eq in ends
    ensures CString(b, sp.q) == Text(s, sp)
  {
    forall k | sp.q <= k < sp.eq ensures b[k] == s[k] && s[k] != '\0' {
      assert k !in ends && s[k] in s;
    }
    CStringIs(b, sp.q, sp.eq);
    assert b[sp.q..sp.eq] == s[sp.q..sp.eq];
  }

  lemma {:induction false} WordsRead(s: string, b: seq<char>, ends: set<nat>, argv: seq<Span>)
    requires '\0' !in s && OutsideWords(s, ends) && Terminated(s, b, ends)
    requires forall k | 0 <= k < |argv| :: IsToken(s, argv[k]) && argv[k].eq in ends
    ensures CStrings(b, argv) == Texts(s, argv)
  {
    if argv != [] {
      TokenReads(s, b, ends, argv[|argv| - 1]);
      WordsRead(s, b, ends, argv[..|argv| - 1]);
    }
  }

  lemma {:induction false} TreeReads(s: string, b: seq<char>, ends: set<nat>, c: Cmd<Span>)
    requires '\0' !in s && OutsideWords(s, ends) && Terminated(s, b, ends) && Tokens(s, c) && EndSet(c) <= ends
    ensures CRead(b, c) == Read(s, c)
  {
    match c
    case Exec(argv) =>
      assert forall k | 0 <= k < |argv| :: argv[k].eq in EndSet(c);
      WordsRead(s, b, ends, argv);
    case Redir(cmd, file, _, _) => TreeReads(s, b, ends, cmd); TokenReads(s, b, ends, file);
    case Pipe(left, right) => TreeReads(s, b, ends, left); TreeReads(s, b, ends, right);
    case List(left, right) => TreeReads(s, b, ends, left); TreeReads(s, b, ends, right);
    case Back(cmd) => TreeReads(s, b, ends, cmd);
  }

  // ---- the whole parser ----

  method Strlen(buf: array<char>) returns (n: nat)
    requires '\0' in buf[..]
    ensures n < buf.Length && buf[n] == '\0' && '\0' !in buf[..n]
  {
    n := 0;
    while buf[n] != '\0'
      invariant n < buf.Length && '\0' !in buf[..n]
      decreases buf.Length - n
    {
      assert '\0' in buf[..] && buf[..] == buf[..n] + buf[n..];
      assert exists k :: n < k < buf.Length && buf[k] == '\0';
      n := n + 1;
    }
  }

  lemma AcceptsExactly(line: string)
    ensures Parse(line).Some? ==> exists t :: Language.Writes(t, line) && Language.Meaning(t) == Parse(line).value
    ensures Parse(line).None? ==> !exists t :: Language.Writes(t, line)
  {
    hide Parse, Language.Writes, Language.Meaning;
    if Parse(line).Some? {
      Language.ParseExact(line, Parse(line).value);
    } else {
      Language.ParseExact(line, Exec([]));
    }
  }

  /** None is a panic.  The buffer's contents up to the first NUL are the command line. */
  method Parsecmd(buf: array<char>) returns (r: Option<Cmd<Span>>, ghost line: string)
    requires '\0' in buf[..]
    modifies buf
    ensures |line| < buf.Length && line == old(buf[..])[..|line|] && old(buf[|line|]) == '\0' && '\0' !in line
    ensures r.Some? <==> Parse(line).Some?
    ensures r.Some? ==> CRead(buf[..], r.value) == Parse(line).value
    ensures r.Some? ==> exists t :: Language.Writes(t, line) && Language.Meaning(t) == CRead(buf[..], r.value)
    ensures r.None? ==> !exists t :: Language.Writes(t, line)
  {
    hide Language.Writes;
    var n := Strlen(buf);
    line := buf[..n];
    var parser := new Parser(buf[..n]);
    r := parser.Parseline();
    AcceptsExactly(line);
    if r.None? {
      return;
    }
    var _ := parser.Peek("");
    if parser.pos != n {
      return None, line;
    }
    TokensOutside(line, r.value);
    Nulterminate(buf, r.value);
    TreeReads(line, buf[..], EndSet(r.value), r.value);
  }

  /** Parsing the printed text of a tree in place gives char pointers that read as the tree. */
  method ParsePrinted(t: Cmd<string>, buf: array<char>) returns (r: Option<Cmd<Span>>)
    requires Good(t) && '\0' !in Print(t) && buf[..] == Print(t) + ['\0']
    modifies buf
    ensures r.Some? && CRead(buf[..], r.value) == t
  {
    ghost var line;
    r, line := Parsecmd(buf);
    RoundTrip(t);
  }
}
