/** Printing a command fully parenthesised and parsing it again. */
module ShellRoundTrip {
  import opened Common
  import opened ShellGrammar

  // ---- Printed form ----

  ghost predicate IsText(w: string) {
    |w| > 0 && forall k :: 0 <= k < |w| ==> WordChar(w[k])
  }

  /** The trees the grammar can produce. */
  ghost predicate WellFormed(t: Cmd<string>) {
    match t
    case Exec(argv) => |argv| < MAXARGS && forall k :: 0 <= k < |argv| ==> IsText(argv[k])
    case Redir(c, file, mode, fd) =>
      WellFormed(c) && IsText(file) && ((mode == O_RDONLY && fd == 0) || (mode == O_WRONLY_CREATE && fd == 1))
    case Pipe(l, r) => WellFormed(l) && WellFormed(r)
    case List(l, r) => WellFormed(l) && WellFormed(r)
    case Back(c) => WellFormed(c)
  }

  function Words(argv: seq<string>): string {
    if argv == [] then ""
    else if |argv| == 1 then argv[0]
    else argv[0] + " " + Words(argv[1..])
  }

  function Body(t: Cmd<string>): string
    decreases t, 0
  {
    match t
    case Exec(argv) => Words(argv)
    case Redir(c, file, mode, _) => Print(c) + (if mode == O_RDONLY then "<" else ">") + file
    case Pipe(l, r) => Print(l) + "|" + Print(r)
    case List(l, r) => Print(l) + ";" + Print(r)
    case Back(c) => Print(c) + "&"
  }

  function Print(t: Cmd<string>): (p: string)
    ensures |p| >= 2 && p[0] == '('
    decreases t, 1
  {
    "(" + Body(t) + ")"
  }

  /** The words a parsed command stands for. */
  function Text(s: string, w: Span): string {
    if w.q <= w.eq <= |s| then s[w.q..w.eq] else ""
  }

  function Texts(s: string, c: Cmd<Span>): Cmd<string> {
    match c
    case Exec(argv) => Exec(seq(|argv|, k requires 0 <= k < |argv| => Text(s, argv[k])))
    case Redir(d, file, mode, fd) => Redir(Texts(s, d), Text(s, file), mode, fd)
    case Pipe(l, r) => Pipe(Texts(s, l), Texts(s, r))
    case List(l, r) => List(Texts(s, l), Texts(s, r))
    case Back(d) => Back(Texts(s, d))
  }

  // ---- Reading at a place ----

  ghost predicate Has(s: string, i: nat, w: string) {
    i + |w| <= |s| && s[i..i + |w|] == w
  }

  lemma HasSplit(s: string, i: nat, a: string, b: string)
    requires Has(s, i, a + b)
    ensures Has(s, i, a) && Has(s, i + |a|, b)
  {
    var w := s[i..i + |a| + |b|];
    assert w[..|a|] == a && w[|a|..] == b;
    assert s[i..i + |a|] == w[..|a|] && s[i + |a|..i + |a| + |b|] == w[|a|..];
  }

  lemma HasChar(s: string, i: nat, w: string, k: nat)
    requires Has(s, i, w) && k < |w|
    ensures i + k < |s| && s[i + k] == w[k]
  {
    assert s[i..i + |w|][k] == w[k];
  }

  lemma SkipStays(s: CString, i: nat)
    requires i < |s| && !Space(s[i])
    ensures Skip(s, i) == i
  {
  }

  lemma LexSymbol(s: CString, i: nat)
    requires i < |s| && Symbol(s[i]) && (s[i] == '>' && i + 1 < |s| ==> s[i + 1] != '>')
    ensures Lex(s, i) == Token(s[i], i, i + 1, Skip(s, i + 1))
  {
  }

  lemma LexWord(s: CString, i: nat, w: string)
    requires Has(s, i, w) && IsText(w) && (i + |w| < |s| ==> !WordChar(s[i + |w|]))
    ensures Lex(s, i) == Token('a', i, i + |w|, Skip(s, i + |w|)) && Text(s, Span(i, i + |w|)) == w
  {
    forall k | i <= k < i + |w|
      ensures WordChar(s[k])
    {
      HasChar(s, i, w, k - i);
    }
    assert WordChar(s[i]);
    SkipStays(s, i);
    assert WordEnd(s, i) >= i + |w|;
  }

  /** Nothing follows that a command could take in: ParseRedirs finds no redirection. */
  lemma NoRedirs(s: CString, i: nat)
    requires i < |s| && !Space(s[i]) && s[i] != '<' && s[i] != '>'
    ensures ParseRedirs(s, i) == Redirs([], i)
  {
    SkipStays(s, i);
  }

  // ---- The pieces of a printed command ----

  lemma WordsHead(argv: seq<string>)
    requires |argv| > 0 && IsText(argv[0])
    ensures |Words(argv)| > 0 && WordChar(Words(argv)[0])
  {
  }

  /** Where the words after the first are. */
  lemma WordsTail(s: CString, i: nat, rest: seq<string>) returns (next: nat)
    requires Has(s, i, Words(rest) + ")") && |rest| > 0
    requires forall k :: 0 <= k < |rest| ==> IsText(rest[k])
    ensures Has(s, i, rest[0]) && next <= |s| && i + |rest[0]| < |s| && !WordChar(s[i + |rest[0]|])
    ensures next == Skip(s, i + |rest[0]|) && Has(s, next, Words(rest[1..]) + ")")
    ensures next + |Words(rest[1..])| == i + |Words(rest)|
    ensures ParseRedirs(s, next) == Redirs([], next)
  {
    hide ParseRedirs, Lex, WordEnd, Has;
    var w, tail := rest[0], rest[1..];
    var j := i + |w|;
    if tail == [] {
      assert Words(rest) == w && Words(tail) + ")" == ")";
      HasSplit(s, i, w, ")");
      HasChar(s, j, ")", 0);
      next := j;
    } else {
      var more := Words(tail) + ")";
      assert Words(rest) + ")" == w + (" " + more);
      HasSplit(s, i, w, " " + more);
      HasSplit(s, j, " ", more);
      HasChar(s, j, " ", 0);
      WordsHead(tail);
      HasChar(s, j + 1, more, 0);
      next := j + 1;
    }
    SkipStays(s, next);
    NoRedirs(s, next);
  }

  /** One round of parseexec's loop. */
  lemma ArgStep(s: CString, i: nat, w: string, argv: seq<Span>)
    requires Has(s, i, w) && IsText(w) && i + |w| < |s| && !WordChar(s[i + |w|]) && |argv| + 1 < MAXARGS
    requires ParseRedirs(s, Skip(s, i + |w|)) == Redirs([], Skip(s, i + |w|))
    ensures ParseArgs(s, i, argv, []) == ParseArgs(s, Skip(s, i + |w|), argv + [Span(i, i + |w|)], [])
  {
    hide ParseRedirs, Lex, WordEnd;
    LexWord(s, i, w);
    HasChar(s, i, w, 0);
    SkipStays(s, i);
    var none: seq<Redirection> := [];
    assert none + none == none;
  }

  ghost predicate ShowsWords(s: string, ws: seq<Span>, argv: seq<string>) {
    |ws| == |argv| && forall k :: 0 <= k < |ws| ==> Text(s, ws[k]) == argv[k]
  }

  lemma ArgsEnd(s: CString, i: nat, argv: seq<Span>)
    requires Has(s, i, Words([]) + ")")
    ensures ParseArgs(s, i, argv, []) == Ok(Exec(argv), i + |Words([])|)
  {
    HasChar(s, i, ")", 0);
    SkipStays(s, i);
  }

  lemma {:induction false} ArgsParse(s: CString, i: nat, rest: seq<string>, argv: seq<Span>) returns (ws: seq<Span>)
    requires Has(s, i, Words(rest) + ")") && |argv| + |rest| < MAXARGS
    requires forall k :: 0 <= k < |rest| ==> IsText(rest[k])
    ensures ParseArgs(s, i, argv, []) == Ok(Exec(argv + ws), i + |Words(rest)|)
    ensures ShowsWords(s, ws, rest)
    decreases |rest|
  {
    hide Words, ParseRedirs, ParseArgs, Lex, Has, Text, IsText, WordChar, Skip;
    if rest == [] {
      ArgsEnd(s, i, argv);
      ws := [];
      assert argv + ws == argv;
      return;
    }
    var w := Span(i, i + |rest[0]|);
    var next := WordsTail(s, i, rest);
    LexWord(s, i, rest[0]);
    ArgStep(s, i, rest[0], argv);
    var ws' := ArgsParse(s, next, rest[1..], argv + [w]);
    ws := [w] + ws';
    assert argv + ws == (argv + [w]) + ws';
  }

  /** parseblock's end: the redirections behind the closing parenthesis wrap the command. */
  ghost function After(c: Cmd<Span>, rs: Redirs): Parsed {
    if rs.BadRedirs? then Panic(rs.msg) else Ok(Wrap(c, rs.list), rs.next)
  }

  lemma SkipTwice(s: CString, i: nat)
    requires i <= |s|
    ensures Skip(s, Skip(s, i)) == Skip(s, i)
  {
  }

  lemma SameLex(s: CString, i: nat, j: nat)
    requires i <= |s| && j <= |s| && Skip(s, i) == Skip(s, j)
    ensures Lex(s, i) == Lex(s, j) && Peek(s, i, "<>") == Peek(s, j, "<>")
  {
    hide Skip, WordEnd;
  }

  lemma RedirsFrom(s: CString, i: nat, j: nat)
    requires i <= |s| && j <= |s| && Skip(s, i) == Skip(s, j)
    ensures ParseRedirs(s, j) == ParseRedirs(s, i)
  {
    hide Skip, Lex, Peek;
    SameLex(s, i, j);
  }

  /** Spaces in front make no difference to parseredirs. */
  lemma RedirsSkip(s: CString, i: nat)
    requires i <= |s|
    ensures ParseRedirs(s, Skip(s, i)) == ParseRedirs(s, i)
  {
    SkipTwice(s, i);
    RedirsFrom(s, i, Skip(s, i));
  }

  /** A parenthesised line, seen from parseexec. */
  lemma BlockParses(s: CString, i: nat, c: Cmd<Span>, j: nat)
    requires i + 1 <= j < |s| && s[i] == '(' && s[j] == ')' && !Space(s[i + 1]) && ParseLine(s, i + 1) == Ok(c, j)
    ensures ParseExec(s, i) == After(c, ParseRedirs(s, j + 1))
  {
    hide ParseLine, ParseRedirs, Lex;
    SkipStays(s, i);
    SkipStays(s, i + 1);
    SkipStays(s, j);
    LexSymbol(s, i);
    LexSymbol(s, j);
    RedirsSkip(s, j + 1);
  }

  /** One command up to a closing parenthesis is a line. */
  lemma LineEnds(s: CString, i: nat, c: Cmd<Span>, j: nat)
    requires i <= j < |s| && s[j] == ')' && ParseExec(s, i) == Ok(c, j)
    ensures ParsePipe(s, i) == Ok(c, j) && ParseLine(s, i) == Ok(c, j)
  {
    hide ParseExec;
    SkipStays(s, j);
  }

  lemma LinePipe(s: CString, i: nat, c: Cmd<Span>, m: nat, d: Cmd<Span>, j: nat)
    requires i <= m && m + 1 < |s| && m < j < |s| && s[m] == '|' && !Space(s[m + 1]) && s[j] == ')'
    requires ParseExec(s, i) == Ok(c, m) && ParsePipe(s, m + 1) == Ok(d, j)
    ensures ParseLine(s, i) == Ok(Pipe(c, d), j)
  {
    hide ParseExec, Lex;
    SkipStays(s, m);
    SkipStays(s, m + 1);
    LexSymbol(s, m);
    SkipStays(s, j);
    assert ParsePipe(s, i) == Ok(Pipe(c, d), j);
  }

  lemma LineList(s: CString, i: nat, c: Cmd<Span>, m: nat, d: Cmd<Span>, j: nat)
    requires i <= m && m + 1 < |s| && m < j < |s| && s[m] == ';' && !Space(s[m + 1])
    requires ParseExec(s, i) == Ok(c, m) && ParseLine(s, m + 1) == Ok(d, j)
    ensures ParseLine(s, i) == Ok(List(c, d), j)
  {
    hide ParseExec, Lex;
    SkipStays(s, m);
    SkipStays(s, m + 1);
    LexSymbol(s, m);
    assert ParsePipe(s, i) == Ok(c, m);
    assert ParseBacks(s, m, c) == Ok(c, m);
  }

  lemma LineBack(s: CString, i: nat, c: Cmd<Span>, m: nat)
    requires i <= m && m + 1 < |s| && s[m] == '&' && s[m + 1] == ')' && ParseExec(s, i) == Ok(c, m)
    ensures ParseLine(s, i) == Ok(Back(c), m + 1)
  {
    hide ParseExec, Lex;
    SkipStays(s, m);
    SkipStays(s, m + 1);
    LexSymbol(s, m);
    assert ParsePipe(s, i) == Ok(c, m);
    assert ParseBacks(s, m + 1, Back(c)) == Ok(Back(c), m + 1);
  }

  lemma TextHead(w: string)
    requires IsText(w)
    ensures WordChar(w[0]) && !Space(w[0]) && !Symbol(w[0]) && !WordChar(')') && !Space(')')
  {
  }

  lemma OneRedir(s: CString, i: nat, file: string)
    requires i < |s| && (s[i] == '<' || s[i] == '>') && IsText(file) && Has(s, i + 1, file + ")")
    ensures
      var e := i + 1 + |file|;
      && ParseRedirs(s, i) == Redirs([RedirOf(s[i], Span(i + 1, e))], e)
      && Text(s, Span(i + 1, e)) == file && e < |s| && s[e] == ')'
  {
    hide Lex, WordEnd, Has, WordChar;
    TextHead(file);
    HasSplit(s, i + 1, file, ")");
    HasChar(s, i + 1, file, 0);
    HasChar(s, i + 1 + |file|, ")", 0);
    SkipStays(s, i);
    SkipStays(s, i + 1);
    SkipStays(s, i + 1 + |file|);
    LexSymbol(s, i);
    LexWord(s, i + 1, file);
    NoRedirs(s, i + 1 + |file|);
    var r := RedirOf(s[i], Span(i + 1, i + 1 + |file|));
    assert [r] + [] == [r];
  }

  lemma BodyHead(t: Cmd<string>)
    requires WellFormed(t)
    ensures var x := (Body(t) + ")")[0]; WordChar(x) || x == ')' || x == '('
    ensures t.Exec? ==> (Body(t) + ")")[0] != '('
  {
    if t.Exec? && t.argv != [] { WordsHead(t.argv); }
  }

  lemma ExecParses(s: CString, j: nat, argv: seq<string>) returns (c: Cmd<Span>)
    requires Has(s, j, Words(argv) + ")") && WellFormed(Exec(argv))
    ensures Texts(s, c) == Exec(argv) && ParseExec(s, j) == Ok(c, j + |Words(argv)|)
  {
    hide ParseArgs, ParseLine, ParsePipe, Lex, Words;
    BodyHead(Exec(argv));
    HasChar(s, j, Words(argv) + ")", 0);
    SkipStays(s, j);
    NoRedirs(s, j);
    var ws := ArgsParse(s, j, argv, []);
    assert [] + ws == ws;
    c := Exec(ws);
  }

  /** A printed command followed by something that is no redirection. */
  lemma Alone(s: CString, i: nat, t: Cmd<string>, c: Cmd<Span>)
    requires Has(s, i, Print(t)) && ParseExec(s, i) == After(c, ParseRedirs(s, i + |Print(t)|))
    requires var m := i + |Print(t)|; m < |s| && !Space(s[m]) && s[m] != '<' && s[m] != '>'
    ensures ParseExec(s, i) == Ok(c, i + |Print(t)|)
  {
    hide ParseExec, Print;
    NoRedirs(s, i + |Print(t)|);
  }

  /** Parsing a printed command gives the command back, and goes on with what stands behind it. */
  lemma {:induction false} PrintParses(s: CString, i: nat, t: Cmd<string>) returns (c: Cmd<Span>)
    requires WellFormed(t) && Has(s, i, Print(t))
    ensures Texts(s, c) == t && ParseExec(s, i) == After(c, ParseRedirs(s, i + |Print(t)|))
    decreases t, 2
  {
    hide ParseExec, ParseLine, ParseRedirs, Texts, Body;
    assert Print(t) == "(" + (Body(t) + ")");
    HasSplit(s, i, "(", Body(t) + ")");
    HasChar(s, i, "(", 0);
    BodyHead(t);
    HasChar(s, i + 1, Body(t) + ")", 0);
    HasChar(s, i + 1, Body(t) + ")", |Body(t)|);
    c := BodyParses(s, i + 1, t);
    BlockParses(s, i, c, i + 1 + |Body(t)|);
  }

  lemma {:induction false} BackParses(s: CString, j: nat, d: Cmd<string>) returns (c: Cmd<Span>)
    requires WellFormed(d) && Has(s, j, Body(Back(d)) + ")")
    ensures Texts(s, c) == Back(d) && ParseLine(s, j) == Ok(c, j + |Body(Back(d))|)
    decreases d, 3
  {
    hide ParseExec, ParseLine, ParsePipe, ParseRedirs, Print;
    assert Body(Back(d)) + ")" == Print(d) + "&)";
    HasSplit(s, j, Print(d), "&)");
    HasChar(s, j + |Print(d)|, "&)", 0);
    HasChar(s, j + |Print(d)|, "&)", 1);
    var cd := PrintParses(s, j, d);
    Alone(s, j, d, cd);
    LineBack(s, j, cd, j + |Print(d)|);
    c := Back(cd);
  }

  lemma {:induction false} BodyParses(s: CString, j: nat, t: Cmd<string>) returns (c: Cmd<Span>)
    requires WellFormed(t) && Has(s, j, Body(t) + ")")
    ensures Texts(s, c) == t && ParseLine(s, j) == Ok(c, j + |Body(t)|)
    decreases t, 1
  {
    hide ParseExec, ParseLine, ParsePipe, ParseRedirs, Print;
    var e := j + |Body(t)|;
    HasChar(s, j, Body(t) + ")", |Body(t)|);
    match t
    case Exec(argv) =>
      c := ExecParses(s, j, argv);
      LineEnds(s, j, c, e);
    case Redir(d, file, mode, fd) =>
      c := RedirParses(s, j, d, file, mode, fd);
    case Pipe(l, r) =>
      var m, cl, cr := PairParses(s, j, t, l, "|", r);
      LineEnds(s, m + 1, cr, e);
      LinePipe(s, j, cl, m, cr, e);
      c := Pipe(cl, cr);
    case List(l, r) =>
      var m, cl, cr := PairParses(s, j, t, l, ";", r);
      LineEnds(s, m + 1, cr, e);
      LineList(s, j, cl, m, cr, e);
      c := List(cl, cr);
    case Back(d) =>
      c := BackParses(s, j, d);
  }

  lemma PairLayout(s: CString, j: nat, p: string, sep: string, q: string)
    requires |sep| == 1 && |q| > 0 && Has(s, j, p + sep + q + ")")
    ensures
      var m := j + |p|;
      && Has(s, j, p) && Has(s, m + 1, q) && m + 1 + |q| < |s|
      && s[m] == sep[0] && s[m + 1] == q[0] && s[m + 1 + |q|] == ')'
  {
    var m := j + |p|;
    assert p + sep + q + ")" == p + (sep + (q + ")"));
    HasSplit(s, j, p, sep + (q + ")"));
    HasSplit(s, m, sep, q + ")");
    HasSplit(s, m + 1, q, ")");
    HasChar(s, m, sep, 0);
    HasChar(s, m + 1, q, 0);
    HasChar(s, m + 1 + |q|, ")", 0);
  }

  /** Two printed commands with a separator between them. */
  lemma {:induction false} PairParses(s: CString, j: nat, t: Cmd<string>, l: Cmd<string>, sep: string, r: Cmd<string>)
    returns (m: nat, cl: Cmd<Span>, cr: Cmd<Span>)
    requires (t.Pipe? || t.List?) && l == t.left && r == t.right
    requires WellFormed(l) && WellFormed(r) && (sep == "|" || sep == ";") && Has(s, j, Print(l) + sep + Print(r) + ")")
    ensures m == j + |Print(l)| && m + 1 + |Print(r)| < |s| && s[m] == sep[0] && s[m + 1] == '('
    ensures Texts(s, cl) == l && Texts(s, cr) == r
    ensures ParseExec(s, j) == Ok(cl, m) && ParseExec(s, m + 1) == Ok(cr, m + 1 + |Print(r)|)
    decreases t, 0
  {
    hide ParseExec, ParseRedirs, Texts, Print, Has, WellFormed, After;
    m := j + |Print(l)|;
    PairLayout(s, j, Print(l), sep, Print(r));
    cl := PrintParses(s, j, l);
    Alone(s, j, l, cl);
    cr := PrintParses(s, m + 1, r);
    Alone(s, m + 1, r, cr);
  }

  lemma {:induction false} RedirParses(s: CString, j: nat, d: Cmd<string>, file: string, mode: nat, fd: nat)
    returns (c: Cmd<Span>)
    requires WellFormed(Redir(d, file, mode, fd)) && Has(s, j, Body(Redir(d, file, mode, fd)) + ")")
    ensures Texts(s, c) == Redir(d, file, mode, fd)
    ensures ParseLine(s, j) == Ok(c, j + |Body(Redir(d, file, mode, fd))|)
    decreases d, 3
  {
    hide ParseExec, ParseLine, ParsePipe, ParseRedirs, Print, Has, Lex, Skip, Peek;
    var sign := if mode == O_RDONLY then "<" else ">";
    var m := j + |Print(d)|;
    var e := m + 1 + |file|;
    assert Body(Redir(d, file, mode, fd)) + ")" == Print(d) + (sign + (file + ")"));
    HasSplit(s, j, Print(d), sign + (file + ")"));
    HasSplit(s, m, sign, file + ")");
    HasChar(s, m, sign, 0);
    var cd := PrintParses(s, j, d);
    OneRedir(s, m, file);
    var r := RedirOf(s[m], Span(m + 1, e));
    c := Redir(cd, r.file, r.mode, r.fd);
    assert Wrap(cd, [r]) == c by { assert [r][..0] == []; }
    LineEnds(s, j, c, e);
  }

  lemma {:induction false} WordsNoNul(argv: seq<string>)
    requires forall k :: 0 <= k < |argv| ==> IsText(argv[k])
    ensures NUL !in Words(argv)
  {
    if argv != [] {
      assert IsText(argv[0]);
      WordsNoNul(argv[1..]);
    }
  }

  lemma {:induction false} PrintNoNul(t: Cmd<string>)
    requires WellFormed(t)
    ensures NUL !in Print(t)
  {
    match t
    case Exec(argv) => WordsNoNul(argv);
    case Redir(c, _, _, _) => PrintNoNul(c);
    case Pipe(l, r) =>
      PrintNoNul(l);
      PrintNoNul(r);
    case List(l, r) =>
      PrintNoNul(l);
      PrintNoNul(r);
    case Back(c) => PrintNoNul(c);
  }

  /** A command that uses up the input. */
  lemma WholeLine(s: CString, c: Cmd<Span>)
    requires ParseExec(s, 0) == After(c, ParseRedirs(s, |s|))
    ensures ParseCmd(s) == Ok(c, |s|)
  {
    hide ParseExec;
    assert ParseRedirs(s, |s|) == Redirs([], |s|);
    assert ParsePipe(s, 0) == Ok(c, |s|);
    assert ParseBacks(s, |s|, c) == Ok(c, |s|);
  }

  /** parsecmd undoes printing, for every well-formed command. */
  lemma RoundTrip(t: Cmd<string>)
    requires WellFormed(t)
    ensures NUL !in Print(t)
    ensures ParseCmd(Print(t)).Ok? && Texts(Print(t), ParseCmd(Print(t)).cmd) == t
  {
    hide ParseCmd, ParseExec, ParseRedirs, Texts, WellFormed, Print;
    PrintNoNul(t);
    var s: CString := Print(t);
    assert s[0..0 + |Print(t)|] == Print(t);
    var c := PrintParses(s, 0, t);
    WholeLine(s, c);
  }

  // ---- What the parser can return ----

  ghost predicate LexedRedir(s: CString, file: Span, mode: nat, fd: nat) {
    IsWord(s, file) && ((mode == O_RDONLY && fd == 0) || (mode == O_WRONLY_CREATE && fd == 1))
  }

  ghost predicate LexedRedirs(s: CString, rs: seq<Redirection>) {
    forall k :: 0 <= k < |rs| ==> LexedRedir(s, rs[k].file, rs[k].mode, rs[k].fd)
  }

  ghost predicate LexedWords(s: CString, argv: seq<Span>) {
    |argv| < MAXARGS && forall k :: 0 <= k < |argv| ==> IsWord(s, argv[k])
  }

  /** Every word is a token of the input, argument lists are short enough, and modes are the two that sh.c uses. */
  ghost predicate Lexed(s: CString, c: Cmd<Span>) {
    match c
    case Exec(argv) => LexedWords(s, argv)
    case Redir(d, file, mode, fd) => Lexed(s, d) && LexedRedir(s, file, mode, fd)
    case Pipe(l, r) => Lexed(s, l) && Lexed(s, r)
    case List(l, r) => Lexed(s, l) && Lexed(s, r)
    case Back(d) => Lexed(s, d)
  }

  lemma {:induction false} WrapLexed(s: CString, c: Cmd<Span>, rs: seq<Redirection>)
    requires Lexed(s, c) && LexedRedirs(s, rs)
    ensures Lexed(s, Wrap(c, rs))
    decreases |rs|
  {
    if rs != [] { WrapLexed(s, c, rs[..|rs| - 1]); }
  }

  lemma {:induction false} RedirsLexed(s: CString, i: nat)
    requires i <= |s|
    ensures ParseRedirs(s, i).Redirs? ==> LexedRedirs(s, ParseRedirs(s, i).list)
    decreases |s| - i
  {
    if Peek(s, i, "<>") {
      var file := Lex(s, Lex(s, i).next);
      if file.kind == 'a' { RedirsLexed(s, file.next); }
    }
  }

  lemma {:induction false} ArgsLexed(s: CString, i: nat, argv: seq<Span>, rs: seq<Redirection>)
    requires i <= |s| && LexedWords(s, argv) && LexedRedirs(s, rs)
    ensures ParseArgs(s, i, argv, rs).Ok? ==> Lexed(s, ParseArgs(s, i, argv, rs).cmd)
    decreases |s| - i
  {
    hide Lex, ParseRedirs, Wrap, IsWord, Peek, LexedRedir;
    WrapLexed(s, Exec(argv), rs);
    var tok := Lex(s, i);
    if !Peek(s, i, "|)&;") && tok.kind == 'a' && |argv| + 1 < MAXARGS {
      var more := ParseRedirs(s, tok.next);
      if more.Redirs? {
        RedirsLexed(s, tok.next);
        ArgsLexed(s, more.next, argv + [Span(tok.q, tok.eq)], rs + more.list);
      }
    }
  }

  lemma {:induction false} ExecLexed(s: CString, i: nat)
    requires i <= |s|
    ensures ParseExec(s, i).Ok? ==> Lexed(s, ParseExec(s, i).cmd)
    decreases |s| - i, 1
  {
    hide ParseArgs, ParseRedirs, Lexed, ParseBlock, Lex;
    if Peek(s, i, "(") {
      BlockLexed(s, i);
    } else if ParseRedirs(s, i).Redirs? {
      RedirsLexed(s, i);
      ArgsLexed(s, ParseRedirs(s, i).next, [], ParseRedirs(s, i).list);
    }
  }

  lemma {:induction false} BlockLexed(s: CString, i: nat)
    requires i <= |s|
    ensures ParseBlock(s, i).Ok? ==> Lexed(s, ParseBlock(s, i).cmd)
    decreases |s| - i, 0
  {
    hide ParseRedirs, Lexed, ParseLine, Lex, Wrap;
    if ParseBlock(s, i).Ok? {
      LineLexed(s, Lex(s, i).next);
      var body := ParseLine(s, Lex(s, i).next);
      var j := Lex(s, body.next).next;
      RedirsLexed(s, j);
      WrapLexed(s, body.cmd, ParseRedirs(s, j).list);
    }
  }

  lemma {:induction false} PipeLexed(s: CString, i: nat)
    requires i <= |s|
    ensures ParsePipe(s, i).Ok? ==> Lexed(s, ParsePipe(s, i).cmd)
    decreases |s| - i, 2
  {
    hide ParseExec, Lex;
    ExecLexed(s, i);
    var c := ParseExec(s, i);
    if c.Ok? && Peek(s, c.next, "|") { PipeLexed(s, Lex(s, c.next).next); }
  }

  lemma {:induction false} BacksLexed(s: CString, i: nat, c: Cmd<Span>)
    requires i <= |s| && Lexed(s, c)
    ensures Lexed(s, ParseBacks(s, i, c).cmd)
    decreases |s| - i
  {
    if Peek(s, i, "&") { BacksLexed(s, Lex(s, i).next, Back(c)); }
  }

  lemma {:induction false} LineLexed(s: CString, i: nat)
    requires i <= |s|
    ensures ParseLine(s, i).Ok? ==> Lexed(s, ParseLine(s, i).cmd)
    decreases |s| - i, 3
  {
    hide ParsePipe, ParseBacks, Lex;
    PipeLexed(s, i);
    var c := ParsePipe(s, i);
    if c.Ok? {
      BacksLexed(s, c.next, c.cmd);
      var b := ParseBacks(s, c.next, c.cmd);
      if Peek(s, b.next, ";") { LineLexed(s, Lex(s, b.next).next); }
    }
  }

  lemma WordIsText(s: CString, w: Span)
    requires IsWord(s, w)
    ensures IsText(Text(s, w))
  {
    var x := Text(s, w);
    forall k | 0 <= k < |x|
      ensures WordChar(x[k])
    {
      assert x[k] == s[w.q + k];
    }
  }

  lemma {:induction false} TextsWellFormed(s: CString, c: Cmd<Span>)
    requires Lexed(s, c)
    ensures WellFormed(Texts(s, c))
  {
    match c
    case Exec(argv) =>
      forall k | 0 <= k < |argv|
        ensures IsText(Text(s, argv[k]))
      {
        WordIsText(s, argv[k]);
      }
    case Redir(d, file, _, _) =>
      TextsWellFormed(s, d);
      WordIsText(s, file);
    case Pipe(l, r) =>
      TextsWellFormed(s, l);
      TextsWellFormed(s, r);
    case List(l, r) =>
      TextsWellFormed(s, l);
      TextsWellFormed(s, r);
    case Back(d) => TextsWellFormed(s, d);
  }

  /** Whatever the parser accepts, the printed form of what it understood is understood the same way. */
  lemma Canonical(s: CString)
    requires ParseCmd(s).Ok?
    ensures Lexed(s, ParseCmd(s).cmd)
    ensures var t := Texts(s, ParseCmd(s).cmd);
            WellFormed(t) && NUL !in Print(t) && ParseCmd(Print(t)).Ok? && Texts(Print(t), ParseCmd(Print(t)).cmd) == t
  {
    hide ParseLine, Texts, WellFormed, Lexed, Print;
    LineLexed(s, 0);
    TextsWellFormed(s, ParseCmd(s).cmd);
    RoundTrip(Texts(s, ParseCmd(s).cmd));
  }
}
