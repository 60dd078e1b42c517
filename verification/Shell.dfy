/** sh.c's command parser: lexer, recursive descent, and the NUL-termination of the words in place. */
module ShellGrammar {
  import opened Common

  const MAXARGS: nat := 10
  const O_RDONLY: nat := 0x000
  const O_WRONLY_CREATE: nat := 0x201        // O_WRONLY|O_CREATE

  /** A command over words of type W: spans of the input in the parser, strings in what is printed. */
  datatype Cmd<W> =
    | Exec(argv: seq<W>)
    | Redir(cmd: Cmd<W>, file: W, mode: nat, fd: nat)
    | Pipe(left: Cmd<W>, right: Cmd<W>)
    | List(left: Cmd<W>, right: Cmd<W>)
    | Back(cmd: Cmd<W>)

  /** argv[i] and eargv[i], or file and efile: a word starts at q and ends before eq. */
  datatype Span = Span(q: nat, eq: nat)

  datatype Parsed = Ok(cmd: Cmd<Span>, next: nat) | Panic(msg: string)

  // ---- Lexer ----

  predicate Space(c: char) {
    c == ' ' || c == '\t' || c == '\r' || c == '\n' || c == '\U{b}'
  }

  predicate Symbol(c: char) {
    c == '<' || c == '|' || c == '>' || c == '&' || c == ';' || c == '(' || c == ')'
  }

  predicate WordChar(c: char) {
    c != NUL && !Space(c) && !Symbol(c)
  }

  function Skip(s: CString, i: nat): (j: nat)
    requires i <= |s|
    ensures i <= j <= |s| && (j < |s| ==> !Space(s[j]))
    ensures forall k :: i <= k < j ==> Space(s[k])
    decreases |s| - i
  {
    if i < |s| && Space(s[i]) then Skip(s, i + 1) else i
  }

  function WordEnd(s: CString, i: nat): (j: nat)
    requires i <= |s|
    ensures i <= j <= |s| && (j < |s| ==> !WordChar(s[j]))
    ensures forall k :: i <= k < j ==> WordChar(s[k])
    decreases |s| - i
  {
    if i < |s| && WordChar(s[i]) then WordEnd(s, i + 1) else i
  }

  /** gettoken's answer: the token's kind, its span, and the place after the spaces that follow. */
  datatype Token = Token(kind: char, q: nat, eq: nat, next: nat)

  function Peek(s: CString, i: nat, toks: string): bool
    requires i <= |s|
  {
    var j := Skip(s, i);
    j < |s| && s[j] in toks
  }

  /** w is a maximal run of word characters. */
  predicate IsWord(s: CString, w: Span) {
    && w.q < w.eq <= |s|
    && (forall k :: w.q <= k < w.eq ==> WordChar(s[k]))
    && (w.eq < |s| ==> !WordChar(s[w.eq]))
  }

  function Lex(s: CString, i: nat): (t: Token)
    requires i <= |s|
    ensures t.q == Skip(s, i) && t.q <= t.eq <= t.next <= |s|
    ensures t.kind != NUL <==> t.q < |s|
    ensures t.kind != NUL ==> i < t.next
    ensures t.kind == 'a' ==> IsWord(s, Span(t.q, t.eq))
  {
    var q := Skip(s, i);
    if q == |s| then Token(NUL, q, q, q)
    else if s[q] == '>' && q + 1 < |s| && s[q + 1] == '>' then Token('+', q, q + 2, Skip(s, q + 2))
    else if Symbol(s[q]) then Token(s[q], q, q + 1, Skip(s, q + 1))
    else var e := WordEnd(s, q); Token('a', q, e, Skip(s, e))
  }

  // ---- Parser ----

  datatype Redirection = Redirection(file: Span, mode: nat, fd: nat)

  datatype Redirs = Redirs(list: seq<Redirection>, next: nat) | BadRedirs(msg: string)

  function Wrap(cmd: Cmd<Span>, rs: seq<Redirection>): Cmd<Span>
    decreases |rs|
  {
    if rs == [] then cmd
    else Redir(Wrap(cmd, rs[..|rs| - 1]), rs[|rs| - 1].file, rs[|rs| - 1].mode, rs[|rs| - 1].fd)
  }

  function RedirOf(kind: char, file: Span): Redirection {
    if kind == '<' then Redirection(file, O_RDONLY, 0) else Redirection(file, O_WRONLY_CREATE, 1)
  }

  /** parseredirs: the redirections from i on. */
  function ParseRedirs(s: CString, i: nat): (r: Redirs)
    requires i <= |s|
    ensures r.Redirs? ==> i <= r.next <= |s|
    decreases |s| - i
  {
    if !Peek(s, i, "<>") then Redirs([], Skip(s, i))
    else
      var tok := Lex(s, i);
      var file := Lex(s, tok.next);
      if file.kind != 'a' then BadRedirs("missing file for redirection")
      else
        var rest := ParseRedirs(s, file.next);
        if rest.BadRedirs? then rest
        else Redirs([RedirOf(tok.kind, Span(file.q, file.eq))] + rest.list, rest.next)
  }

  /** parseexec's loop, with the arguments and redirections collected so far. */
  function ParseArgs(s: CString, i: nat, argv: seq<Span>, rs: seq<Redirection>): (r: Parsed)
    requires i <= |s|
    ensures r.Ok? ==> i <= r.next <= |s|
    decreases |s| - i
  {
    if Peek(s, i, "|)&;") then Ok(Wrap(Exec(argv), rs), Skip(s, i))
    else
      var tok := Lex(s, i);
      if tok.kind == NUL then Ok(Wrap(Exec(argv), rs), tok.next)
      else if tok.kind != 'a' then Panic("syntax")
      else if |argv| + 1 >= MAXARGS then Panic("too many args")
      else
        var more := ParseRedirs(s, tok.next);
        if more.BadRedirs? then Panic(more.msg)
        else ParseArgs(s, more.next, argv + [Span(tok.q, tok.eq)], rs + more.list)
  }

  function ParseExec(s: CString, i: nat): (r: Parsed)
    requires i <= |s|
    ensures r.Ok? ==> i <= r.next <= |s|
    decreases |s| - i, 1
  {
    if Peek(s, i, "(") then ParseBlock(s, i)
    else
      var rs := ParseRedirs(s, i);
      if rs.BadRedirs? then Panic(rs.msg) else ParseArgs(s, rs.next, [], rs.list)
  }

  function ParseBlock(s: CString, i: nat): (r: Parsed)
    requires i <= |s|
    ensures r.Ok? ==> i <= r.next <= |s|
    decreases |s| - i, 0
  {
    if !Peek(s, i, "(") then Panic("parseblock")
    else
      var body := ParseLine(s, Lex(s, i).next);
      if body.Panic? then body
      else if !Peek(s, body.next, ")") then Panic("syntax - missing )")
      else
        var rs := ParseRedirs(s, Lex(s, body.next).next);
        if rs.BadRedirs? then Panic(rs.msg) else Ok(Wrap(body.cmd, rs.list), rs.next)
  }

  function ParsePipe(s: CString, i: nat): (r: Parsed)
    requires i <= |s|
    ensures r.Ok? ==> i <= r.next <= |s|
    decreases |s| - i, 2
  {
    var cmd := ParseExec(s, i);
    if cmd.Panic? then cmd
    else if !Peek(s, cmd.next, "|") then Ok(cmd.cmd, Skip(s, cmd.next))
    else
      var rest := ParsePipe(s, Lex(s, cmd.next).next);
      if rest.Panic? then rest else Ok(Pipe(cmd.cmd, rest.cmd), rest.next)
  }

  /** parseline's loop over '&'. */
  function ParseBacks(s: CString, i: nat, cmd: Cmd<Span>): (r: Parsed)
    requires i <= |s|
    ensures r.Ok? && i <= r.next <= |s|
    decreases |s| - i
  {
    if Peek(s, i, "&") then ParseBacks(s, Lex(s, i).next, Back(cmd)) else Ok(cmd, Skip(s, i))
  }

  function ParseLine(s: CString, i: nat): (r: Parsed)
    requires i <= |s|
    ensures r.Ok? ==> i <= r.next <= |s|
    decreases |s| - i, 3
  {
    var cmd := ParsePipe(s, i);
    if cmd.Panic? then cmd
    else
      var b := ParseBacks(s, cmd.next, cmd.cmd);
      if !Peek(s, b.next, ";") then Ok(b.cmd, Skip(s, b.next))
      else
        var rest := ParseLine(s, Lex(s, b.next).next);
        if rest.Panic? then rest else Ok(List(b.cmd, rest.cmd), rest.next)
  }

  function ParseCmd(s: CString): Parsed {
    var cmd := ParseLine(s, 0);
    if cmd.Panic? then cmd
    else if Skip(s, cmd.next) != |s| then Panic("syntax")
    else Ok(cmd.cmd, |s|)
  }
}
