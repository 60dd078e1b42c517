/** sh.c's parser as it runs: a cursor moved by loops, and nulterminate writing into the input. */
module ShellCode {
  import opened Common
  import opened ShellGrammar
  import opened ShellRoundTrip

  // ---- Spaces in front of the cursor make no difference ----

  lemma PeekSkip(s: CString, i: nat, toks: string)
    requires i <= |s|
    ensures Skip(s, Skip(s, i)) == Skip(s, i) && Peek(s, Skip(s, i), toks) == Peek(s, i, toks)
    ensures Lex(s, Skip(s, i)) == Lex(s, i)
  {
    SkipTwice(s, i);
    SameLex(s, i, Skip(s, i));
  }

  lemma BlockSkip(s: CString, i: nat)
    requires i <= |s|
    ensures ParseBlock(s, Skip(s, i)) == ParseBlock(s, i)
  {
    hide Lex, ParseLine, ParseRedirs, Skip, Peek;
    PeekSkip(s, i, "(");
  }

  lemma PeekMeansToken(s: CString, i: nat, toks: string)
    requires i <= |s| && Peek(s, i, toks)
    ensures Lex(s, i).kind != NUL
  {
  }

  lemma RedirsAssoc(done: seq<Redirection>, r: Redirection, rest: Redirs)
    ensures rest.Redirs? ==> done + ([r] + rest.list) == (done + [r]) + rest.list
  {
  }

  class Parser {
    const s: CString
    var ps: nat

    constructor (s: CString)
      ensures this.s == s && ps == 0
    {
      this.s := s;
      ps := 0;
    }

    method SkipSpace()
      requires ps <= |s|
      modifies this`ps
      ensures ps == Skip(s, old(ps)) <= |s|
    {
      while ps < |s| && Space(s[ps])
        invariant ps <= |s| && Skip(s, ps) == Skip(s, old(ps))
      {
        ps := ps + 1;
      }
    }

    method GetToken() returns (tok: char, q: nat, eq: nat)
      requires ps <= |s|
      modifies this`ps
      ensures Token(tok, q, eq, ps) == Lex(s, old(ps)) && ps <= |s|
    {
      SkipSpace();
      q := ps;
      if q == |s| {
        tok := NUL;
      } else if s[q] == '>' && q + 1 < |s| && s[q + 1] == '>' {
        tok := '+';
        ps := ps + 2;
      } else if Symbol(s[q]) {
        tok := s[q];
        ps := ps + 1;
      } else {
        tok := 'a';
        while ps < |s| && !Space(s[ps]) && !Symbol(s[ps])
          invariant q <= ps <= |s| && WordEnd(s, ps) == WordEnd(s, q)
        {
          ps := ps + 1;
        }
      }
      eq := ps;
      SkipSpace();
    }

    method PeekFor(toks: string) returns (b: bool)
      requires ps <= |s|
      modifies this`ps
      ensures ps == Skip(s, old(ps)) <= |s| && b == Peek(s, old(ps), toks)
    {
      SkipSpace();
      b := ps < |s| && s[ps] in toks;
    }

    method Redirections() returns (r: Redirs)
      requires ps <= |s|
      modifies this`ps
      ensures r == ParseRedirs(s, old(ps)) && ps <= |s| && (r.Redirs? ==> r.next == ps)
    {
      hide Lex, Skip, Peek;
      var done: seq<Redirection> := [];
      ghost var i: nat := ps;
      ghost var all := ParseRedirs(s, ps);
      var more := PeekFor("<>");
      RedirsSkip(s, i);
      PeekSkip(s, i, "<>");
      while more
        invariant ps <= |s| && more == Peek(s, ps, "<>") && Skip(s, ps) == ps
        invariant
          var rest := ParseRedirs(s, ps);
          all == if rest.BadRedirs? then rest else Redirs(done + rest.list, rest.next)
        decreases |s| - ps
      {
        i := ps;
        var tok, _, _ := GetToken();
        var kind, q, eq := GetToken();
        if kind != 'a' {
          return BadRedirs("missing file for redirection");
        }
        done := done + [RedirOf(tok, Span(q, eq))];
        i := ps;
        more := PeekFor("<>");
        RedirsSkip(s, i);
        PeekSkip(s, i, "<>");
        RedirsAssoc(done[..|done| - 1], RedirOf(tok, Span(q, eq)), ParseRedirs(s, ps));
      }
      r := Redirs(done, ps);
    }

    method ExecCmd() returns (r: Parsed)
      requires ps <= |s|
      modifies this`ps
      ensures r == ParseExec(s, old(ps)) && ps <= |s| && (r.Ok? ==> r.next == ps)
      decreases |s| - ps, 1
    {
      hide Lex, Skip, Peek, ParseBlock, ParseRedirs, Wrap;
      ghost var i: nat := ps;
      var block := PeekFor("(");
      PeekSkip(s, i, "(");
      BlockSkip(s, i);
      RedirsSkip(s, i);
      if block {
        r := Block();
        return;
      }
      var rs := Redirections();
      if rs.BadRedirs? {
        return Panic(rs.msg);
      }
      r := Arguments(rs.list);
    }

    /** parseexec's loop over the arguments. */
    method Arguments(first: seq<Redirection>) returns (r: Parsed)
      requires ps <= |s|
      modifies this`ps
      ensures r == ParseArgs(s, old(ps), [], first) && ps <= |s| && (r.Ok? ==> r.next == ps)
    {
      hide Lex, Skip, Peek, ParseRedirs, Wrap;
      var argv: seq<Span>, list := [], first;
      ghost var i: nat := ps;
      ghost var all := ParseArgs(s, ps, [], first);
      var stop := PeekFor("|)&;");
      PeekSkip(s, i, "|)&;");
      while !stop
        invariant ps <= |s| && i <= ps && ps == Skip(s, i) && stop == Peek(s, i, "|)&;")
        invariant Lex(s, ps) == Lex(s, i) && all == ParseArgs(s, i, argv, list)
        decreases |s| - ps
      {
        var tok, q, eq := GetToken();
        if tok == NUL {
          return Ok(Wrap(Exec(argv), list), ps);
        }
        if tok != 'a' {
          return Panic("syntax");
        }
        if |argv| + 1 >= MAXARGS {
          return Panic("too many args");
        }
        argv := argv + [Span(q, eq)];
        var more := Redirections();
        if more.BadRedirs? {
          return Panic(more.msg);
        }
        list := list + more.list;
        i := ps;
        stop := PeekFor("|)&;");
        PeekSkip(s, i, "|)&;");
      }
      r := Ok(Wrap(Exec(argv), list), ps);
    }

    method Block() returns (r: Parsed)
      requires ps <= |s|
      modifies this`ps
      ensures r == ParseBlock(s, old(ps)) && ps <= |s| && (r.Ok? ==> r.next == ps)
      decreases |s| - ps, 0
    {
      hide Lex, Skip, Peek, ParseRedirs, Wrap, ParseLine;
      ghost var i: nat := ps;
      var open := PeekFor("(");
      PeekSkip(s, i, "(");
      if !open {
        return Panic("parseblock");
      }
      var _, _, _ := GetToken();
      PeekMeansToken(s, i, "(");
      r := Line();
      if r.Panic? {
        return;
      }
      i := ps;
      var close := PeekFor(")");
      PeekSkip(s, i, ")");
      if !close {
        return Panic("syntax - missing )");
      }
      var _, _, _ := GetToken();
      var rs := Redirections();
      if rs.BadRedirs? {
        return Panic(rs.msg);
      }
      r := Ok(Wrap(r.cmd, rs.list), rs.next);
    }

    method PipeLine() returns (r: Parsed)
      requires ps <= |s|
      modifies this`ps
      ensures r == ParsePipe(s, old(ps)) && ps <= |s| && (r.Ok? ==> r.next == ps)
      decreases |s| - ps, 2
    {
      hide Lex, Skip, Peek, ParseExec;
      r := ExecCmd();
      if r.Panic? {
        return;
      }
      var cmd := r.cmd;
      ghost var i: nat := ps;
      var bar := PeekFor("|");
      PeekSkip(s, i, "|");
      if !bar {
        return Ok(cmd, ps);
      }
      PeekMeansToken(s, i, "|");
      var _, _, _ := GetToken();
      r := PipeLine();
      if r.Ok? {
        r := Ok(Pipe(cmd, r.cmd), r.next);
      }
    }

    method Backs(first: Cmd<Span>) returns (cmd: Cmd<Span>)
      requires ps <= |s|
      modifies this`ps
      ensures Ok(cmd, ps) == ParseBacks(s, old(ps), first) && ps <= |s|
    {
      hide Lex, Skip, Peek;
      cmd := first;
      ghost var i: nat := ps;
      ghost var all := ParseBacks(s, ps, first);
      var amp := PeekFor("&");
      PeekSkip(s, i, "&");
      while amp
        invariant ps <= |s| && i <= ps && ps == Skip(s, i) && amp == Peek(s, i, "&")
        invariant Lex(s, ps) == Lex(s, i) && all == ParseBacks(s, i, cmd)
        decreases |s| - ps
      {
        PeekMeansToken(s, i, "&");
        var _, _, _ := GetToken();
        cmd := Back(cmd);
        i := ps;
        amp := PeekFor("&");
        PeekSkip(s, i, "&");
      }
    }

    method Line() returns (r: Parsed)
      requires ps <= |s|
      modifies this`ps
      ensures r == ParseLine(s, old(ps)) && ps <= |s| && (r.Ok? ==> r.next == ps)
      decreases |s| - ps, 3
    {
      hide Lex, Skip, Peek, ParsePipe, ParseBacks;
      r := PipeLine();
      if r.Panic? {
        return;
      }
      var cmd := Backs(r.cmd);
      ghost var i: nat := ps;
      var semi := PeekFor(";");
      PeekSkip(s, i, ";");
      if !semi {
        return Ok(cmd, ps);
      }
      PeekMeansToken(s, i, ";");
      var _, _, _ := GetToken();
      r := Line();
      if r.Ok? {
        r := Ok(List(cmd, r.cmd), r.next);
      }
    }
  }

  // ---- nulterminate ----

  /** eq of some word of the command is k. */
  ghost predicate IsEnd(c: Cmd<Span>, k: nat) {
    match c
    case Exec(argv) => exists j :: 0 <= j < |argv| && argv[j].eq == k
    case Redir(d, file, _, _) => IsEnd(d, k) || file.eq == k
    case Pipe(l, r) => IsEnd(l, k) || IsEnd(r, k)
    case List(l, r) => IsEnd(l, k) || IsEnd(r, k)
    case Back(d) => IsEnd(d, k)
  }

  ghost predicate IsWordOf(c: Cmd<Span>, w: Span) {
    match c
    case Exec(argv) => w in argv
    case Redir(d, file, _, _) => IsWordOf(d, w) || file == w
    case Pipe(l, r) => IsWordOf(l, w) || IsWordOf(r, w)
    case List(l, r) => IsWordOf(l, w) || IsWordOf(r, w)
    case Back(d) => IsWordOf(d, w)
  }

  /** The buffer with a terminator at the end of each word. */
  ghost predicate Terminated(before: seq<char>, after: seq<char>, c: Cmd<Span>) {
    |after| == |before| && forall k: nat :: k < |before| ==> after[k] == if IsEnd(c, k) then NUL else before[k]
  }

  ghost predicate EndsBelow(c: Cmd<Span>, n: nat) {
    forall k: nat :: IsEnd(c, k) ==> k < n
  }

  lemma EndsPart(c: Cmd<Span>, d: Cmd<Span>, n: nat)
    requires EndsBelow(c, n) && forall k: nat :: IsEnd(d, k) ==> IsEnd(c, k)
    ensures EndsBelow(d, n)
  {
  }

  method NulTerminate(c: Cmd<Span>, buf: array<char>)
    requires EndsBelow(c, buf.Length)
    modifies buf
    ensures Terminated(old(buf[..]), buf[..], c)
    decreases c, 1
  {
    match c
    case Exec(argv) =>
      for i := 0 to |argv|
        invariant forall k :: 0 <= k < buf.Length ==>
                    buf[k] == if exists j :: 0 <= j < i && argv[j].eq == k then NUL else old(buf[k])
      {
        assert IsEnd(c, argv[i].eq);
        buf[argv[i].eq] := NUL;
      }
    case Redir(d, file, _, _) =>
      assert EndsBelow(d, buf.Length) by { EndsPart(c, d, buf.Length); }
      NulTerminate(d, buf);
      assert IsEnd(c, file.eq);
      buf[file.eq] := NUL;
    case Pipe(l, r) =>
      NulBoth(c, l, r, buf);
    case List(l, r) =>
      NulBoth(c, l, r, buf);
    case Back(d) =>
      EndsPart(c, d, buf.Length);
      NulTerminate(d, buf);
  }

  method NulBoth(c: Cmd<Span>, l: Cmd<Span>, r: Cmd<Span>, buf: array<char>)
    requires EndsBelow(c, buf.Length) && (c.Pipe? || c.List?) && l == c.left && r == c.right
    modifies buf
    ensures Terminated(old(buf[..]), buf[..], c)
    decreases c, 0
  {
    EndsPart(c, l, buf.Length);
    EndsPart(c, r, buf.Length);
    NulTerminate(l, buf);
    ghost var mid := buf[..];
    NulTerminate(r, buf);
    assert forall k: nat :: k < buf.Length ==> buf[..][k] == if IsEnd(r, k) then NUL else mid[k];
  }

  // ---- The words as C strings ----

  /** What C reads from index i on. */
  function CStringAt(b: seq<char>, i: nat): string
    decreases |b| - i
  {
    if i >= |b| || b[i] == NUL then "" else [b[i]] + CStringAt(b, i + 1)
  }

  lemma {:induction false} CStringIs(b: seq<char>, i: nat, e: nat)
    requires i <= e < |b| && b[e] == NUL && forall k :: i <= k < e ==> b[k] != NUL
    ensures CStringAt(b, i) == b[i..e]
    decreases e - i
  {
    if i < e { CStringIs(b, i + 1, e); }
  }

  lemma {:induction false} LexedWord(s: CString, c: Cmd<Span>, w: Span)
    requires Lexed(s, c) && IsWordOf(c, w)
    ensures IsWord(s, w) && IsEnd(c, w.eq)
  {
    match c
    case Exec(argv) =>
    case Redir(d, file, _, _) => if file != w { LexedWord(s, d, w); }
    case Pipe(l, r) => if IsWordOf(l, w) { LexedWord(s, l, w); } else { LexedWord(s, r, w); }
    case List(l, r) => if IsWordOf(l, w) { LexedWord(s, l, w); } else { LexedWord(s, r, w); }
    case Back(d) => LexedWord(s, d, w);
  }

  /** Words end where no word goes on. */
  lemma {:induction false} LexedEnd(s: CString, c: Cmd<Span>, k: nat)
    requires Lexed(s, c) && IsEnd(c, k)
    ensures k <= |s| && (k < |s| ==> !WordChar(s[k]))
  {
    match c
    case Exec(argv) =>
    case Redir(d, file, _, _) => if file.eq != k { LexedEnd(s, d, k); }
    case Pipe(l, r) => if IsEnd(l, k) { LexedEnd(s, l, k); } else { LexedEnd(s, r, k); }
    case List(l, r) => if IsEnd(l, k) { LexedEnd(s, l, k); } else { LexedEnd(s, r, k); }
    case Back(d) => LexedEnd(s, d, k);
  }

  /** After nulterminate each argv and file pointer, read as a C string, is the token that was lexed. */
  lemma WordsReadBack(s: CString, c: Cmd<Span>, after: seq<char>, w: Span)
    requires Lexed(s, c) && Terminated(s + [NUL], after, c) && IsWordOf(c, w)
    ensures CStringAt(after, w.q) == Text(s, w)
  {
    hide Lexed, IsEnd;
    LexedWord(s, c, w);
    assert after[w.eq] == NUL;
    forall k: nat | w.q <= k < w.eq
      ensures after[k] == s[k] && after[k] != NUL
    {
      if IsEnd(c, k) { LexedEnd(s, c, k); }
    }
    CStringIs(after, w.q, w.eq);
    assert after[w.q..w.eq] == s[w.q..w.eq];
  }

  lemma AllEndsBelow(s: CString, c: Cmd<Span>, n: nat)
    requires Lexed(s, c) && |s| < n
    ensures EndsBelow(c, n)
  {
    forall k: nat | IsEnd(c, k)
      ensures k < n
    {
      LexedEnd(s, c, k);
    }
  }

  /** parsecmd: the tree the grammar gives, with every word terminated in place; the buffer is left alone on a
      syntax error. */
  method RunParseCmd(buf: array<char>, n: nat) returns (r: Parsed)
    requires n < buf.Length && NUL !in buf[..n] && buf[n] == NUL
    modifies buf
    ensures r == ParseCmd(old(buf[..n]))
    ensures r.Panic? ==> buf[..] == old(buf[..])
    ensures r.Ok? ==> forall w :: IsWordOf(r.cmd, w) ==> CStringAt(buf[..n + 1], w.q) == Text(old(buf[..n]), w)
  {
    hide Lexed, IsEnd, IsWordOf, ParseLine, Skip, CStringAt, Text;
    var s: CString := buf[..n];
    assert s + [NUL] == buf[..n + 1];
    var p := new Parser(s);
    r := p.Line();
    if r.Panic? {
      return;
    }
    p.SkipSpace();
    if p.ps != n {
      return Panic("syntax");
    }
    r := Ok(r.cmd, p.ps);
    LineLexed(s, 0);
    AllEndsBelow(s, r.cmd, buf.Length);
    NulTerminate(r.cmd, buf);
    assert Terminated(s + [NUL], buf[..n + 1], r.cmd);
    forall w | IsWordOf(r.cmd, w)
      ensures CStringAt(buf[..n + 1], w.q) == Text(s, w)
    {
      WordsReadBack(s, r.cmd, buf[..n + 1], w);
    }
  }
}
