/** sh.c: the recursive-descent parser over the characters of a line, and nulterminate on the line itself. A position is
    an index into the line; reading at its end gives the NUL. */
module Sh {
  import opened ShGrammar
  import opened ShLex

  /** A whole word of the line: word characters, then something else or the end. */
  predicate ProperSpan(s: string, sp: Span) {
    && 0 <= sp.q < sp.eq <= |s| && (forall k :: sp.q <= k < sp.eq ==> WordChar(s[k]))
    && (sp.eq < |s| ==> !WordChar(s[sp.eq]))
  }

  predicate ProperRedirs(s: string, rs: seq<Redir<Span>>) {
    forall k :: 0 <= k < |rs| ==> ProperSpan(s, rs[k].file)
  }

  predicate ProperCmd(s: string, c: Cmd<Span>) {
    match c
    case Exec(argv) => forall k :: 0 <= k < |argv| ==> ProperSpan(s, argv[k])
    case Redirected(d, r) => ProperCmd(s, d) && ProperSpan(s, r.file)
    case Pipe(l, r) => ProperCmd(s, l) && ProperCmd(s, r)
    case List(l, r) => ProperCmd(s, l) && ProperCmd(s, r)
    case Back(d) => ProperCmd(s, d)
  }

  lemma {:induction false} ProperWrap(s: string, c: Cmd<Span>, rs: seq<Redir<Span>>)
    requires ProperCmd(s, c) && ProperRedirs(s, rs)
    ensures ProperCmd(s, Wrap(c, rs))
    decreases |rs|
  {
    if rs != [] { ProperWrap(s, c, rs[..|rs| - 1]); }
  }

  /** What gettoken returns for a token, and the word it delimits. */
  predicate TokIs(s: string, t: Tok<Span>, tok: char, q: int, eq: int) {
    match t
    case Word(sp) => tok == 'a' && sp == Span(q, eq) && ProperSpan(s, sp)
    case Sign(m) => tok == (match m case Read => '<' case Write => '>' case Append => '+')
    case Sym(c) => tok == c && c in "|();&"
  }

  method SkipSpace(s: string, i0: int) returns (i: int)
    requires 0 <= i0 <= |s|
    ensures i == SkipWs(s, i0)
  {
    i := i0;
    while i < |s| && Ws(s[i])
      invariant i0 <= i <= |s| && SkipWs(s, i) == SkipWs(s, i0)
    {
      i := i + 1;
    }
  }

  method ScanWord(s: string, i0: int) returns (i: int)
    requires 0 <= i0 <= |s|
    ensures i == WordEnd(s, i0)
  {
    i := i0;
    while i < |s| && !Ws(s[i]) && !IsSym(s[i])
      invariant i0 <= i <= |s| && WordEnd(s, i) == WordEnd(s, i0)
    {
      i := i + 1;
    }
  }

  lemma WordIsProper(s: string, i: int)
    requires 0 <= i < |s| && NulFree(s) && !Ws(s[i]) && !IsSym(s[i])
    ensures ProperSpan(s, Span(i, WordEnd(s, i)))
  {
  }

  /** The next token; 0 at the end of the line. */
  method GetToken(s: string, i0: int) returns (tok: char, q: int, eq: int, i: int)
    requires 0 <= i0 <= |s| && NulFree(s)
    ensures i0 <= i <= |s|
    ensures Tokens(s, i0) == [] ==> tok == '\0' && i == |s|
    ensures Tokens(s, i0) != [] ==> tok != '\0' && TokIs(s, Tokens(s, i0)[0], tok, q, eq)
    ensures Tokens(s, i0) != [] ==> i > i0 && Tokens(s, i) == Tokens(s, i0)[1..]
  {
    i := SkipSpace(s, i0);
    q, eq, tok := i, i, '\0';
    NextToken(s, i0);
    if i < |s| {
      tok, eq := TokenAt(s, i);
    }
    i := SkipSpace(s, eq);
    TokensSkip(s, eq);
  }

  lemma NextToken(s: string, i: int)
    requires 0 <= i <= |s|
    ensures var j := SkipWs(s, i);
            if j == |s| then Tokens(s, i) == []
            else Tokens(s, i) != [] && Tokens(s, i)[0] == TokAt(s, j).0 && Tokens(s, i)[1..] == Tokens(s, TokAt(s, j).1)
  {
  }

  /** The switch of gettoken. */
  method TokenAt(s: string, j: int) returns (tok: char, eq: int)
    requires 0 <= j < |s| && NulFree(s) && !Ws(s[j])
    ensures tok != '\0' && eq == TokAt(s, j).1 && TokIs(s, TokAt(s, j).0, tok, j, eq)
  {
    tok, eq := s[j], j;
    if tok in "|();&<" {
      eq := eq + 1;
    } else if tok == '>' {
      eq := eq + 1;
      if eq < |s| && s[eq] == '>' {
        tok := '+';
        eq := eq + 1;
      }
    } else {
      tok := 'a';
      eq := ScanWord(s, eq);
      WordIsProper(s, j);
    }
  }

  /** Whether the next character that is not white space is one of toks. */
  method Peek(s: string, i0: int, toks: string) returns (b: bool, i: int)
    requires 0 <= i0 <= |s|
    ensures i0 <= i <= |s| && Tokens(s, i) == Tokens(s, i0) && (i < |s| ==> !Ws(s[i]))
    ensures b <==> i < |s| && s[i] in toks
  {
    i := SkipSpace(s, i0);
    TokensSkip(s, i0);
    b := i < |s| && s[i] in toks;
  }

  /** Looking at the character is looking at the token. */
  lemma PeekSym(s: string, i: int, toks: string)
    requires 0 <= i <= |s| && (i < |s| ==> !Ws(s[i])) && forall k :: 0 <= k < |toks| ==> toks[k] in "|();&"
    ensures i < |s| && s[i] in toks <==> Starts(Tokens(s, i), toks)
    ensures i == |s| <==> Tokens(s, i) == []
  {
    assert SkipWs(s, i) == i;
  }

  lemma PeekSign(s: string, i: int)
    requires 0 <= i <= |s| && (i < |s| ==> !Ws(s[i]))
    ensures i < |s| && s[i] in "<>" <==> Tokens(s, i) != [] && Tokens(s, i)[0].Sign?
  {
    assert SkipWs(s, i) == i;
  }

  // The parser proper: on every line each routine returns what the grammar's routine makes of the line's tokens.

  datatype Out = Parsed(cmd: Cmd<Span>, i: int) | Panicked(e: Error)

  ghost predicate Agrees(s: string, i0: int, out: Out, r: Result<Span>)
    requires 0 <= i0
  {
    match r
    case Ok(cmd, rest) =>
      out.Parsed? && out.cmd == cmd && i0 <= out.i <= |s| && Tokens(s, out.i) == rest && ProperCmd(s, cmd)
    case Panic(e) => out == Panicked(e)
  }

  datatype RedirOut = RedirOut(rs: seq<Redir<Span>>, i: int) | FileMissing

  ghost predicate RedirAgrees(s: string, i0: int, out: RedirOut, r: Redirs<Span>)
    requires 0 <= i0
  {
    match r
    case Redirs(rs, rest) => out.RedirOut? && out.rs == rs && i0 <= out.i <= |s| && Tokens(s, out.i) == rest && ProperRedirs(s, rs)
    case NoFile => out == FileMissing
  }

  method ParseRedirections(rs0: seq<Redir<Span>>, s: string, i0: int) returns (out: RedirOut)
    requires 0 <= i0 <= |s| && NulFree(s) && ProperRedirs(s, rs0)
    ensures RedirAgrees(s, i0, out, ParseRedirs(rs0, Tokens(s, i0)))
  {
    var rs := rs0;
    var more, i := Peek(s, i0, "<>");
    PeekSign(s, i);
    while more
      invariant i0 <= i <= |s| && ProperRedirs(s, rs) && ParseRedirs(rs, Tokens(s, i)) == ParseRedirs(rs0, Tokens(s, i0))
      invariant more <==> Tokens(s, i) != [] && Tokens(s, i)[0].Sign?
      decreases |s| - i
    {
      var ok, r, i1 := OneRedirection(s, i);
      if !ok {
        return FileMissing;
      }
      rs := rs + [r];
      more, i := Peek(s, i1, "<>");
      PeekSign(s, i);
    }
    out := RedirOut(rs, i);
  }

  /** A redirection sign and its file. */
  method OneRedirection(s: string, i0: int) returns (ok: bool, r: Redir<Span>, i: int)
    requires 0 <= i0 <= |s| && NulFree(s) && Tokens(s, i0) != [] && Tokens(s, i0)[0].Sign?
    ensures ok <==> |Tokens(s, i0)| > 1 && Tokens(s, i0)[1].Word?
    ensures ok ==> r == Redir(Tokens(s, i0)[0].mode, Tokens(s, i0)[1].w) && ProperSpan(s, r.file)
    ensures ok ==> i0 < i <= |s| && Tokens(s, i) == Tokens(s, i0)[2..]
  {
    var tok, q, eq, i1 := GetToken(s, i0);
    var mode := if tok == '<' then Read else if tok == '>' then Write else Append;
    var tok2;
    tok2, q, eq, i := GetToken(s, i1);
    WordTok(s, i1, tok2, q, eq);
    ok, r := tok2 == 'a', Redir(mode, Span(q, eq));
  }

  /** Only a word makes gettoken return 'a'. */
  lemma WordTok(s: string, i: int, tok: char, q: int, eq: int)
    requires 0 <= i <= |s|
    requires Tokens(s, i) == [] ==> tok == '\0'
    requires Tokens(s, i) != [] ==> TokIs(s, Tokens(s, i)[0], tok, q, eq)
    ensures tok == 'a' <==> Tokens(s, i) != [] && Tokens(s, i)[0].Word?
  {
  }

  lemma ArgsNext(args: seq<Span>, rs: seq<Redir<Span>>, ts: seq<Tok<Span>>)
    requires ts != [] && ts[0].Word? && |args| + 1 < MAXARGS
    ensures ParseArgs(args, rs, ts) ==
              match ParseRedirs(rs, ts[1..])
              case NoFile => Panic(MissingFile)
              case Redirs(rs', rest) => ParseArgs(args + [ts[0].w], rs', rest)
  {
  }

  /** parseexec after its first parseredirs. */
  method ArgsAt(rs0: seq<Redir<Span>>, s: string, i0: int) returns (out: Out)
    requires 0 <= i0 <= |s| && NulFree(s) && ProperRedirs(s, rs0)
    ensures Agrees(s, i0, out, ParseArgs([], rs0, Tokens(s, i0)))
  {
    ghost var goal := ParseArgs([], rs0, Tokens(s, i0));
    var args: seq<Span>, rs := [], rs0;
    var stop, i := Peek(s, i0, "|)&;");
    PeekSym(s, i, "|)&;");
    while !stop && i < |s|
      invariant i0 <= i <= |s| && ProperRedirs(s, rs) && |args| < MAXARGS && ParseArgs(args, rs, Tokens(s, i)) == goal
      invariant forall k :: 0 <= k < |args| ==> ProperSpan(s, args[k])
      invariant stop <==> Starts(Tokens(s, i), "|)&;")
      invariant i == |s| <==> Tokens(s, i) == []
      decreases |s| - i
    {
      var tok, q, eq, i1 := GetToken(s, i);
      WordTok(s, i, tok, q, eq);
      if tok != 'a' {
        return Panicked(Syntax);
      }
      args := args + [Span(q, eq)];
      if |args| >= MAXARGS {
        return Panicked(TooManyArgs);
      }
      var r := ParseRedirections(rs, s, i1);
      ArgsNext(args[..|args| - 1], rs, Tokens(s, i));
      if r.FileMissing? {
        return Panicked(MissingFile);
      }
      rs := r.rs;
      stop, i := Peek(s, r.i, "|)&;");
      PeekSym(s, i, "|)&;");
    }
    ProperWrap(s, Exec(args), rs);
    out := Parsed(Wrap(Exec(args), rs), i);
  }

  /** parseblock: a line in parentheses, and its redirections. */
  method BlockAt(s: string, i0: int) returns (out: Out)
    requires 0 <= i0 <= |s| && NulFree(s) && Starts(Tokens(s, i0), "(")
    ensures Agrees(s, i0, out, ParseExec(Tokens(s, i0)))
    decreases |s| - i0, 0
  {
    var tok, q, eq, i := GetToken(s, i0);
    out := LineAt(s, i);
    if out.Panicked? {
      return;
    }
    var close, i1 := Peek(s, out.i, ")");
    PeekSym(s, i1, ")");
    if !close {
      return Panicked(MissingParen);
    }
    var i2;
    tok, q, eq, i2 := GetToken(s, i1);
    var r := ParseRedirections([], s, i2);
    if r.FileMissing? {
      return Panicked(MissingFile);
    }
    ProperWrap(s, out.cmd, r.rs);
    out := Parsed(Wrap(out.cmd, r.rs), r.i);
  }

  method ExecAt(s: string, i0: int) returns (out: Out)
    requires 0 <= i0 <= |s| && NulFree(s)
    ensures Agrees(s, i0, out, ParseExec(Tokens(s, i0)))
    decreases |s| - i0, 1
  {
    var open, i := Peek(s, i0, "(");
    PeekSym(s, i, "(");
    if open {
      out := BlockAt(s, i);
      return;
    }
    var r := ParseRedirections([], s, i);
    if r.FileMissing? {
      return Panicked(MissingFile);
    }
    out := ArgsAt(r.rs, s, r.i);
  }

  method PipeAt(s: string, i0: int) returns (out: Out)
    requires 0 <= i0 <= |s| && NulFree(s)
    ensures Agrees(s, i0, out, ParsePipe(Tokens(s, i0)))
    decreases |s| - i0, 2
  {
    out := ExecAt(s, i0);
    if out.Panicked? {
      return;
    }
    var bar, i := Peek(s, out.i, "|");
    PeekSym(s, i, "|");
    if bar {
      var tok, q, eq, i1 := GetToken(s, i);
      var right := PipeAt(s, i1);
      if right.Panicked? {
        return right;
      }
      out := Parsed(Pipe(out.cmd, right.cmd), right.i);
    } else {
      out := Parsed(out.cmd, i);
    }
  }

  /** The loop of parseline over &. */
  method BacksAt(cmd0: Cmd<Span>, s: string, i0: int) returns (cmd: Cmd<Span>, i: int)
    requires 0 <= i0 <= |s| && NulFree(s) && ProperCmd(s, cmd0)
    ensures i0 <= i <= |s| && ProperCmd(s, cmd) && ParseBacks(cmd0, Tokens(s, i0)) == Ok(cmd, Tokens(s, i))
  {
    cmd := cmd0;
    var amp;
    amp, i := Peek(s, i0, "&");
    PeekSym(s, i, "&");
    while amp
      invariant i0 <= i <= |s| && ProperCmd(s, cmd) && ParseBacks(cmd, Tokens(s, i)) == ParseBacks(cmd0, Tokens(s, i0))
      invariant amp <==> Starts(Tokens(s, i), "&")
      decreases |s| - i
    {
      var tok, q, eq, i1 := GetToken(s, i);
      cmd := Back(cmd);
      amp, i := Peek(s, i1, "&");
      PeekSym(s, i, "&");
    }
  }

  method LineAt(s: string, i0: int) returns (out: Out)
    requires 0 <= i0 <= |s| && NulFree(s)
    ensures Agrees(s, i0, out, ParseLine(Tokens(s, i0)))
    decreases |s| - i0, 3
  {
    out := PipeAt(s, i0);
    if out.Panicked? {
      return;
    }
    var cmd, i := BacksAt(out.cmd, s, out.i);
    var semi, i1 := Peek(s, i, ";");
    PeekSym(s, i1, ";");
    out := Parsed(cmd, i1);
    if semi {
      var tok, q, eq, i2 := GetToken(s, i1);
      var right := LineAt(s, i2);
      if right.Panicked? {
        return right;
      }
      out := Parsed(List(cmd, right.cmd), right.i);
    }
  }

  // nulterminate.

  /** The positions just after the words of the tree. */
  ghost function Ends(c: Cmd<Span>): set<int> {
    match c
    case Exec(argv) => set k | 0 <= k < |argv| :: argv[k].eq
    case Redirected(d, r) => Ends(d) + {r.file.eq}
    case Pipe(l, r) => Ends(l) + Ends(r)
    case List(l, r) => Ends(l) + Ends(r)
    case Back(d) => Ends(d)
  }

  ghost predicate HasWord(c: Cmd<Span>, sp: Span) {
    match c
    case Exec(argv) => sp in argv
    case Redirected(d, r) => HasWord(d, sp) || sp == r.file
    case Pipe(l, r) => HasWord(l, sp) || HasWord(r, sp)
    case List(l, r) => HasWord(l, sp) || HasWord(r, sp)
    case Back(d) => HasWord(d, sp)
  }

  /** Writes a NUL after every word of the tree, and nothing else. */
  method NulTerminate(c: Cmd<Span>, buf: array<char>, ghost s: string)
    requires ProperCmd(s, c) && buf.Length > |s|
    modifies buf
    ensures forall k :: 0 <= k < buf.Length ==> buf[k] == if k in Ends(c) then '\0' else old(buf[k])
    decreases c
  {
    match c
    case Exec(argv) =>
      var i := 0;
      while i < |argv|
        invariant 0 <= i <= |argv|
        invariant forall k :: 0 <= k < buf.Length ==>
                    buf[k] == if exists j :: 0 <= j < i && argv[j].eq == k then '\0' else old(buf[k])
      {
        buf[argv[i].eq] := '\0';
        i := i + 1;
      }
    case Redirected(d, r) =>
      NulTerminate(d, buf, s);
      buf[r.file.eq] := '\0';
    case Pipe(l, r) =>
      NulTerminate(l, buf, s);
      NulTerminate(r, buf, s);
    case List(l, r) =>
      NulTerminate(l, buf, s);
      NulTerminate(r, buf, s);
    case Back(d) =>
      NulTerminate(d, buf, s);
  }

  /** The C string that begins at position q of b: up to the first NUL. */
  ghost predicate CString(b: seq<char>, q: int, w: string) {
    && 0 <= q && q + |w| < |b| && b[q + |w|] == '\0'
    && forall k :: 0 <= k < |w| ==> b[q + k] == w[k] && w[k] != '\0'
  }

  /** No terminator falls inside a word. */
  lemma {:induction false} EndsOutside(s: string, c: Cmd<Span>, e: int)
    requires ProperCmd(s, c) && e in Ends(c)
    ensures 0 <= e <= |s| && (e < |s| ==> !WordChar(s[e]))
  {
    match c
    case Exec(argv) =>
      var k :| 0 <= k < |argv| && argv[k].eq == e;
    case Redirected(d, r) => if e in Ends(d) { EndsOutside(s, d, e); }
    case Pipe(l, r) => if e in Ends(l) { EndsOutside(s, l, e); } else { EndsOutside(s, r, e); }
    case List(l, r) => if e in Ends(l) { EndsOutside(s, l, e); } else { EndsOutside(s, r, e); }
    case Back(d) => EndsOutside(s, d, e);
  }

  lemma {:induction false} WordHasEnd(s: string, c: Cmd<Span>, sp: Span)
    requires ProperCmd(s, c) && HasWord(c, sp)
    ensures ProperSpan(s, sp) && sp.eq in Ends(c)
  {
    match c
    case Exec(argv) =>
      var k :| 0 <= k < |argv| && argv[k] == sp;
      assert argv[k].eq in Ends(c);
    case Redirected(d, r) => if HasWord(d, sp) { WordHasEnd(s, d, sp); }
    case Pipe(l, r) => if HasWord(l, sp) { WordHasEnd(s, l, sp); } else { WordHasEnd(s, r, sp); }
    case List(l, r) => if HasWord(l, sp) { WordHasEnd(s, l, sp); } else { WordHasEnd(s, r, sp); }
    case Back(d) => WordHasEnd(s, d, sp);
  }

  /** b is the line s with a NUL after every word of the tree. */
  ghost predicate Terminated(s: string, c: Cmd<Span>, b: seq<char>) {
    && |b| > |s| && (forall k :: 0 <= k < |s| ==> b[k] == if k in Ends(c) then '\0' else s[k])
    && forall e :: e in Ends(c) && 0 <= e < |b| ==> b[e] == '\0'
  }

  /** After the terminators are written, every word pointer of the tree is the C string gettoken delimited. */
  lemma WordsIntact(s: string, c: Cmd<Span>, b: seq<char>, sp: Span)
    requires ProperCmd(s, c) && HasWord(c, sp) && Terminated(s, c, b)
    ensures CString(b, sp.q, Text(s, sp))
  {
    hide ProperCmd, HasWord, Ends, WordChar, Terminated;
    WordHasEnd(s, c, sp);
    EndIntact(s, c, b, sp);
    var w := Text(s, sp);
    forall k | 0 <= k < |w| ensures b[sp.q + k] == w[k] && w[k] != '\0' {
      CharIntact(s, c, b, sp, sp.q + k);
    }
  }

  lemma EndIntact(s: string, c: Cmd<Span>, b: seq<char>, sp: Span)
    requires Terminated(s, c, b) && ProperSpan(s, sp) && sp.eq in Ends(c)
    ensures |b| > |s| && b[sp.eq] == '\0'
  {
    hide Ends, WordChar;
  }

  lemma CharIntact(s: string, c: Cmd<Span>, b: seq<char>, sp: Span, k: int)
    requires ProperCmd(s, c) && ProperSpan(s, sp) && sp.q <= k < sp.eq && Terminated(s, c, b)
    ensures |b| > |s| && b[k] == s[k] && s[k] != '\0'
  {
    hide ProperCmd, Ends;
    assert WordChar(s[k]);
    if k in Ends(c) { EndsOutside(s, c, k); }
  }

  method Strlen(buf: array<char>) returns (n: int)
    requires exists k :: 0 <= k < buf.Length && buf[k] == '\0'
    ensures 0 <= n < buf.Length && buf[n] == '\0' && NulFree(buf[..n])
  {
    ghost var z :| 0 <= z < buf.Length && buf[z] == '\0';
    n := 0;
    while buf[n] != '\0'
      invariant 0 <= n <= z && forall k :: 0 <= k < n ==> buf[k] != '\0'
      decreases z - n
    {
      n := n + 1;
    }
  }

  /** parsecmd: the whole line or a panic; on success every word pointer is the word it delimits, now NUL-terminated. */
  method ParseCommand(buf: array<char>) returns (out: Out)
    requires exists k :: 0 <= k < buf.Length && buf[k] == '\0'
    modifies buf
    ensures exists n :: 0 <= n < buf.Length && NulFree(old(buf[..])[..n]) && old(buf[..])[n] == '\0' &&
                        Answers(old(buf[..])[..n], buf[..], out)
  {
    var n := Strlen(buf);
    ghost var before := buf[..];
    var s := buf[..n];
    assert s == before[..n];
    out := LineAt(s, 0);
    if out.Parsed? {
      var none, i := Peek(s, out.i, "");
      PeekSym(s, i, "");
      if i != |s| {
        out := Panicked(Syntax);
      } else {
        NulTerminate(out.cmd, buf, s);
        forall sp | HasWord(out.cmd, sp) ensures CString(buf[..], sp.q, Text(s, sp)) {
          WordsIntact(s, out.cmd, buf[..], sp);
        }
      }
    }
  }

  /** What parsecmd makes of line s: the grammar's tree if that uses up the line, and else a panic. */
  ghost predicate Answers(s: string, b: seq<char>, out: Out) {
    match ParseLine(Tokens(s, 0))
    case Panic(e) => out == Panicked(e)
    case Ok(cmd, rest) =>
      if rest != [] then out == Panicked(Syntax)
      else out.Parsed? && out.cmd == cmd && forall sp :: HasWord(cmd, sp) ==> CString(b, sp.q, Text(s, sp))
  }

  /** The line s is a form within the argument limit that stands for t, written with those gaps. */
  ghost predicate Spells(s: string, t: Cmd<string>, f: Form<string>, gaps: seq<string>) {
    Proper(f) && InLimit(f) && Tree(f) == t && LineIs(s, Flat(f), gaps)
  }

  /** What parsecmd accepts, exactly: it returns a tree that reads as t if and only if the line is written as the grammar
      says for t, with white space as it must be; on every other line it panics. */
  lemma AcceptsExactly(s: string, b: seq<char>, out: Out, t: Cmd<string>)
    requires NulFree(s) && Answers(s, b, out)
    ensures out.Parsed? && AbsCmd(s, out.cmd) == t <==> exists f, gaps :: Spells(s, t, f, gaps)
  {
    hide Tokens, ParseLine, Flat, Tree, Proper, InLimit, LineIs, CString, HasWord;
    var toks := Tokens(s, 0);
    var ts := AbsToks(s, toks);
    AbsParseLine(s, toks);
    ParsesExactly(ts, t);
    LexExactly(s, ts);
    if out.Parsed? && AbsCmd(s, out.cmd) == t {
      var f :| Writes(f, ts, t);
      var gaps :| LineIs(s, ts, gaps);
      assert Spells(s, t, f, gaps);
    }
    if f, gaps :| Spells(s, t, f, gaps) {
      LexLine(s, Flat(f), gaps);
      assert Writes(f, ts, t);
    }
  }

  /** So parsecmd on a tree printed with any white space that keeps its tokens apart returns that tree, with every word a
      C string of its own. */
  lemma PrintedCommandParses(t: Cmd<string>, gaps: seq<string>, s: string, b: seq<char>, out: Out)
    requires Fits(t) && Wordy(t) && GapsOk(ToksLine(t), gaps) && s == LineOf(ToksLine(t), gaps, 0) && Answers(s, b, out)
    ensures out.Parsed? && AbsCmd(s, out.cmd) == t
    ensures forall sp :: HasWord(out.cmd, sp) ==> CString(b, sp.q, Text(s, sp))
  {
    RoundTrip(t, gaps);
  }
}
