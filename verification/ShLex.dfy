/** From characters to tokens and back: what gettoken makes of a line, and the printed form of a command tree. */
module ShLex {
  import opened ShGrammar

  /** A word as gettoken delimits it: characters q up to eq. */
  datatype Span = Span(q: int, eq: int)

  predicate Ws(c: char) { c == ' ' || c == '\t' || c == '\r' || c == '\n' || c == 11 as char }

  predicate IsSym(c: char) { c in "<|>&;()" }

  predicate WordChar(c: char) { !Ws(c) && !IsSym(c) && c != '\0' }

  function SkipWs(s: string, i: int): (r: int)
    requires 0 <= i <= |s|
    ensures i <= r <= |s| && (r < |s| ==> !Ws(s[r])) && forall k :: i <= k < r ==> Ws(s[k])
    decreases |s| - i
  {
    if i < |s| && Ws(s[i]) then SkipWs(s, i + 1) else i
  }

  function WordEnd(s: string, i: int): (r: int)
    requires 0 <= i <= |s|
    ensures i <= r <= |s| && (r < |s| ==> Ws(s[r]) || IsSym(s[r])) && forall k :: i <= k < r ==> !Ws(s[k]) && !IsSym(s[k])
    decreases |s| - i
  {
    if i < |s| && !Ws(s[i]) && !IsSym(s[i]) then WordEnd(s, i + 1) else i
  }

  /** The token that begins at position j, which is not white space, and where it ends. */
  function TokAt(s: string, j: int): (r: (Tok<Span>, int))
    requires 0 <= j < |s| && !Ws(s[j])
    ensures j < r.1 <= |s|
  {
    var c := s[j];
    if c == '<' then (Sign(Read), j + 1)
    else if c == '>' then (if j + 1 < |s| && s[j + 1] == '>' then (Sign(Append), j + 2) else (Sign(Write), j + 1))
    else if IsSym(c) then (Sym(c), j + 1)
    else (Word(Span(j, WordEnd(s, j))), WordEnd(s, j))
  }

  /** The tokens from position i on. */
  function Tokens(s: string, i: int): seq<Tok<Span>>
    requires 0 <= i <= |s|
    decreases |s| - i
  {
    var j := SkipWs(s, i);
    if j == |s| then [] else [TokAt(s, j).0] + Tokens(s, TokAt(s, j).1)
  }

  lemma {:induction false} TokensSkip(s: string, i: int)
    requires 0 <= i <= |s|
    ensures Tokens(s, SkipWs(s, i)) == Tokens(s, i)
  {
  }

  // Words instead of spans.

  function Text(s: string, sp: Span): string {
    if 0 <= sp.q <= sp.eq <= |s| then s[sp.q..sp.eq] else ""
  }

  function AbsTok(s: string, t: Tok<Span>): Tok<string> {
    match t
    case Word(sp) => Word(Text(s, sp))
    case Sign(m) => Sign(m)
    case Sym(c) => Sym(c)
  }

  function AbsToks(s: string, ts: seq<Tok<Span>>): (r: seq<Tok<string>>)
    ensures |r| == |ts| && forall k :: 0 <= k < |ts| ==> r[k] == AbsTok(s, ts[k])
  {
    seq(|ts|, k requires 0 <= k < |ts| => AbsTok(s, ts[k]))
  }

  function AbsWords(s: string, ws: seq<Span>): (r: seq<string>)
    ensures |r| == |ws| && forall k :: 0 <= k < |ws| ==> r[k] == Text(s, ws[k])
  {
    seq(|ws|, k requires 0 <= k < |ws| => Text(s, ws[k]))
  }

  function AbsRedir(s: string, r: Redir<Span>): Redir<string> { Redir(r.mode, Text(s, r.file)) }

  function AbsRedirs(s: string, rs: seq<Redir<Span>>): (r: seq<Redir<string>>)
    ensures |r| == |rs| && forall k :: 0 <= k < |rs| ==> r[k] == AbsRedir(s, rs[k])
  {
    seq(|rs|, k requires 0 <= k < |rs| => AbsRedir(s, rs[k]))
  }

  function AbsCmd(s: string, c: Cmd<Span>): Cmd<string> {
    match c
    case Exec(argv) => Exec(AbsWords(s, argv))
    case Redirected(d, r) => Redirected(AbsCmd(s, d), AbsRedir(s, r))
    case Pipe(l, r) => Pipe(AbsCmd(s, l), AbsCmd(s, r))
    case List(l, r) => List(AbsCmd(s, l), AbsCmd(s, r))
    case Back(d) => Back(AbsCmd(s, d))
  }

  function AbsResult(s: string, r: Result<Span>): Result<string> {
    match r
    case Ok(cmd, rest) => Ok(AbsCmd(s, cmd), AbsToks(s, rest))
    case Panic(e) => Panic(e)
  }

  // Parsing does not look inside words.

  lemma AbsTail(s: string, ts: seq<Tok<Span>>, n: int)
    requires 0 <= n <= |ts|
    ensures AbsToks(s, ts)[n..] == AbsToks(s, ts[n..])
  {
  }

  lemma {:induction false} AbsWrap(s: string, cmd: Cmd<Span>, rs: seq<Redir<Span>>)
    ensures Wrap(AbsCmd(s, cmd), AbsRedirs(s, rs)) == AbsCmd(s, Wrap(cmd, rs))
    decreases |rs|
  {
    if rs != [] {
      var n := |rs| - 1;
      AbsWrap(s, cmd, rs[..n]);
      assert AbsRedirs(s, rs)[..n] == AbsRedirs(s, rs[..n]);
    }
  }

  function AbsRedirsResult(s: string, r: Redirs<Span>): Redirs<string> {
    match r
    case Redirs(rs, rest) => Redirs(AbsRedirs(s, rs), AbsToks(s, rest))
    case NoFile => NoFile
  }

  lemma {:induction false} AbsParseRedirs(s: string, rs: seq<Redir<Span>>, ts: seq<Tok<Span>>)
    ensures ParseRedirs(AbsRedirs(s, rs), AbsToks(s, ts)) == AbsRedirsResult(s, ParseRedirs(rs, ts))
    decreases |ts|
  {
    if ts != [] && ts[0].Sign? && |ts| > 1 && ts[1].Word? {
      var r := Redir(ts[0].mode, ts[1].w);
      AbsParseRedirs(s, rs + [r], ts[2..]);
      AbsTail(s, ts, 2);
      assert AbsRedirs(s, rs + [r]) == AbsRedirs(s, rs) + [AbsRedir(s, r)];
    }
  }

  lemma {:induction false} AbsParseArgs(s: string, args: seq<Span>, rs: seq<Redir<Span>>, ts: seq<Tok<Span>>)
    ensures ParseArgs(AbsWords(s, args), AbsRedirs(s, rs), AbsToks(s, ts)) == AbsResult(s, ParseArgs(args, rs, ts))
    decreases |ts|
  {
    if ts == [] || Starts(ts, "|)&;") {
      AbsWrap(s, Exec(args), rs);
    } else if ts[0].Word? && |args| + 1 < MAXARGS {
      AbsTail(s, ts, 1);
      AbsParseRedirs(s, rs, ts[1..]);
      var r := ParseRedirs(rs, ts[1..]);
      if r.Redirs? {
        AbsParseArgs(s, args + [ts[0].w], r.redirs, r.rest);
        assert AbsWords(s, args + [ts[0].w]) == AbsWords(s, args) + [Text(s, ts[0].w)];
      }
    }
  }

  lemma {:induction false} AbsParseExec(s: string, ts: seq<Tok<Span>>)
    ensures ParseExec(AbsToks(s, ts)) == AbsResult(s, ParseExec(ts))
    decreases |ts|, 0
  {
    assert AbsRedirs(s, []) == [] && AbsWords(s, []) == [];
    if Starts(ts, "(") {
      AbsTail(s, ts, 1);
      AbsParseLine(s, ts[1..]);
      var inner := ParseLine(ts[1..]);
      if inner.Ok? && Starts(inner.rest, ")") {
        AbsTail(s, inner.rest, 1);
        AbsParseRedirs(s, [], inner.rest[1..]);
        var r := ParseRedirs([], inner.rest[1..]);
        if r.Redirs? { AbsWrap(s, inner.cmd, r.redirs); }
      }
    } else {
      AbsParseRedirs(s, [], ts);
      var r := ParseRedirs([], ts);
      if r.Redirs? { AbsParseArgs(s, [], r.redirs, r.rest); }
    }
  }

  lemma {:induction false} AbsParsePipe(s: string, ts: seq<Tok<Span>>)
    ensures ParsePipe(AbsToks(s, ts)) == AbsResult(s, ParsePipe(ts))
    decreases |ts|, 1
  {
    AbsParseExec(s, ts);
    var left := ParseExec(ts);
    if left.Ok? && Starts(left.rest, "|") {
      AbsTail(s, left.rest, 1);
      AbsParsePipe(s, left.rest[1..]);
    }
  }

  lemma {:induction false} AbsParseBacks(s: string, cmd: Cmd<Span>, ts: seq<Tok<Span>>)
    ensures ParseBacks(AbsCmd(s, cmd), AbsToks(s, ts)) == AbsResult(s, ParseBacks(cmd, ts))
    decreases |ts|
  {
    if Starts(ts, "&") {
      AbsTail(s, ts, 1);
      AbsParseBacks(s, Back(cmd), ts[1..]);
    }
  }

  lemma {:induction false} AbsParseLine(s: string, ts: seq<Tok<Span>>)
    ensures ParseLine(AbsToks(s, ts)) == AbsResult(s, ParseLine(ts))
    decreases |ts|, 2
  {
    AbsParsePipe(s, ts);
    var first := ParsePipe(ts);
    if first.Ok? {
      AbsParseBacks(s, first.cmd, first.rest);
      var left := ParseBacks(first.cmd, first.rest);
      if Starts(left.rest, ";") {
        AbsTail(s, left.rest, 1);
        AbsParseLine(s, left.rest[1..]);
      }
    }
  }

  // The characters of a token, and a line: tokens with white space between them, wherever two would run together.

  function Show(t: Tok<string>): string {
    match t
    case Word(w) => w
    case Sign(m) => (match m case Read => "<" case Write => ">" case Append => ">>")
    case Sym(c) => [c]
  }

  predicate AllWs(g: string) { forall k :: 0 <= k < |g| ==> Ws(g[k]) }

  predicate NulFree(s: string) { forall k :: 0 <= k < |s| ==> s[k] != '\0' }

  /** Written one right after the other, a and b would read as something else. */
  predicate Touch(a: Tok<string>, b: Tok<string>) {
    (a.Word? && b.Word?) || (a == Sign(Write) && b.Sign? && b.mode != Read)
  }

  /** Something may stand between any two tokens, and must where they touch. */
  ghost predicate GapsOk(ts: seq<Tok<string>>, gaps: seq<string>) {
    && |gaps| == |ts| + 1 && (forall k :: 0 <= k < |gaps| ==> AllWs(gaps[k]))
    && forall k :: 0 < k < |ts| && gaps[k] == "" ==> !Touch(ts[k - 1], ts[k])
  }

  /** The line from the k-th gap on. */
  function LineOf(ts: seq<Tok<string>>, gaps: seq<string>, k: int): string
    requires 0 <= k <= |ts| && |gaps| == |ts| + 1
    decreases |ts| - k
  {
    gaps[k] + if k == |ts| then "" else Show(ts[k]) + LineOf(ts, gaps, k + 1)
  }

  /** Something gettoken would take for one word. */
  predicate IsWord(w: string) { w != "" && forall k :: 0 <= k < |w| ==> WordChar(w[k]) }

  predicate Good(t: Tok<string>) {
    match t
    case Word(w) => IsWord(w)
    case Sign(m) => true
    case Sym(c) => c in "|();&"
  }

  ghost predicate AllGood(ts: seq<Tok<string>>) { forall k :: 0 <= k < |ts| ==> Good(ts[k]) }

  /** Every word of the tree is one. */
  predicate Wordy(t: Cmd<string>) {
    match t
    case Exec(argv) => forall k :: 0 <= k < |argv| ==> IsWord(argv[k])
    case Redirected(c, r) => Wordy(c) && IsWord(r.file)
    case Pipe(l, r) => Wordy(l) && Wordy(r)
    case List(l, r) => Wordy(l) && Wordy(r)
    case Back(c) => Wordy(c)
  }

  predicate GoodItem(it: Item<string>) {
    match it
    case Arg(w) => IsWord(w)
    case Into(r) => IsWord(r.file)
  }

  lemma {:induction false} GoodItems(items: seq<Item<string>>)
    requires forall k :: 0 <= k < |items| ==> GoodItem(items[k])
    ensures AllGood(ItemToks(items))
    decreases |items|
  {
    if items != [] { GoodItems(items[1..]); }
  }

  lemma {:induction false} GoodRedirs(rs: seq<Redir<string>>)
    requires forall k :: 0 <= k < |rs| ==> IsWord(rs[k].file)
    ensures AllGood(RedirToks(rs))
    decreases |rs|
  {
    if rs != [] { GoodRedirs(rs[1..]); }
  }

  lemma {:induction false} WordyParts(t: Cmd<string>)
    requires Wordy(t)
    ensures Wordy(Base(t)) && forall k :: 0 <= k < |Around(t)| ==> IsWord(Around(t)[k].file)
  {
    if t.Redirected? { WordyParts(t.cmd); }
  }

  lemma {:induction false} GoodInner(t: Cmd<string>)
    requires !t.Redirected? && Wordy(t)
    ensures AllGood(Flat(InnerForm(t)))
    decreases t, 0
  {
    match t
    case Exec(argv) => GoodItems(Items(argv, []));
    case Pipe(l, r) => GoodCommand(l); GoodPipeline(r);
    case List(l, r) => GoodGroup(l); GoodLine(r);
    case Back(c) => GoodGroup(c);
  }

  lemma {:induction false} GoodCommand(t: Cmd<string>)
    requires Wordy(t)
    ensures AllGood(Flat(CommandForm(t)))
    decreases t, 1
  {
    var b, rs := Base(t), Around(t);
    WordyParts(t);
    if b.Exec? {
      GoodItems(Items(b.argv, rs));
    } else {
      GoodInner(b);
      GoodRedirs(rs);
    }
  }

  lemma {:induction false} GoodPipeline(t: Cmd<string>)
    requires Wordy(t)
    ensures AllGood(Flat(PipelineForm(t)))
    decreases t, 2
  {
    if t.Pipe? { GoodInner(t); } else { GoodCommand(t); }
  }

  lemma {:induction false} GoodGroup(t: Cmd<string>)
    requires Wordy(t)
    ensures AllGood(Flat(GroupForm(t)))
    decreases t, 3
  {
    if t.Back? { GoodInner(t); } else { GoodPipeline(t); }
  }

  lemma {:induction false} GoodLine(t: Cmd<string>)
    requires Wordy(t)
    ensures AllGood(ToksLine(t))
    decreases t, 4
  {
    if t.List? { GoodInner(t); } else { GoodGroup(t); }
  }

  /** Nothing from position e on continues t. */
  predicate Closed(s: string, e: int, t: Tok<string>)
    requires 0 <= e <= |s|
  {
    && (t.Word? ==> e == |s| || Ws(s[e]) || IsSym(s[e]))
    && (t == Sign(Write) ==> e == |s| || s[e] != '>')
  }

  predicate StandsAt(s: string, j: int, t: Tok<string>) {
    0 <= j && j + |Show(t)| <= |s| && Good(t) && s[j..j + |Show(t)|] == Show(t) && Closed(s, j + |Show(t)|, t)
  }

  /** From position i on, s is the tokens of ts from the k-th on, with white space before, between and after them. */
  predicate Renders(s: string, i: int, ts: seq<Tok<string>>, k: int)
    requires 0 <= k <= |ts| && 0 <= i <= |s|
    decreases |ts| - k
  {
    var j := SkipWs(s, i);
    if k == |ts| then j == |s| else StandsAt(s, j, ts[k]) && Renders(s, j + |Show(ts[k])|, ts, k + 1)
  }

  lemma {:induction false} WordEnds(s: string, i: int, e: int)
    requires 0 <= i <= e <= |s| && (e < |s| ==> Ws(s[e]) || IsSym(s[e])) && forall k :: i <= k < e ==> !Ws(s[k]) && !IsSym(s[k])
    ensures WordEnd(s, i) == e
  {
  }

  lemma LexWord(s: string, j: int, t: Tok<string>)
    requires StandsAt(s, j, t) && t.Word?
    ensures j < |s| && !Ws(s[j]) && TokAt(s, j) == (Word(Span(j, j + |t.w|)), j + |t.w|)
  {
    var e := j + |t.w|;
    forall k | j <= k < e ensures !Ws(s[k]) && !IsSym(s[k]) {
      assert s[k] == s[j..e][k - j] == t.w[k - j];
    }
    WordEnds(s, j, e);
  }

  lemma LexSign(s: string, j: int, t: Tok<string>)
    requires StandsAt(s, j, t) && !t.Word?
    ensures j < |s| && !Ws(s[j]) && TokAt(s, j) == (if t.Sign? then Sign(t.mode) else Sym(t.c), j + |Show(t)|)
  {
    var w, e := Show(t), j + |Show(t)|;
    assert s[j] == s[j..e][0] == w[0];
    if |w| == 2 { assert s[j + 1] == s[j..e][1] == w[1]; }
  }

  /** A token that stands at j is what is lexed there, and whatever is lexed there stands there. */
  lemma LexOne(s: string, j: int, t: Tok<string>)
    requires StandsAt(s, j, t)
    ensures j < |s| && !Ws(s[j]) && AbsTok(s, TokAt(s, j).0) == t && TokAt(s, j).1 == j + |Show(t)|
  {
    if t.Word? { LexWord(s, j, t); } else { LexSign(s, j, t); }
  }

  lemma TokStands(s: string, j: int)
    requires 0 <= j < |s| && !Ws(s[j]) && NulFree(s)
    ensures var t := AbsTok(s, TokAt(s, j).0); StandsAt(s, j, t) && TokAt(s, j).1 == j + |Show(t)|
  {
    if IsSym(s[j]) { SignStands(s, j); } else { WordStands(s, j); }
  }

  lemma WordStands(s: string, j: int)
    requires 0 <= j < |s| && !Ws(s[j]) && NulFree(s) && !IsSym(s[j])
    ensures var t := AbsTok(s, TokAt(s, j).0); StandsAt(s, j, t) && TokAt(s, j).1 == j + |Show(t)|
  {
    var e := WordEnd(s, j);
    assert TokAt(s, j) == (Word(Span(j, e)), e) && e > j;
    assert IsWord(s[j..e]);
    hide TokAt, WordEnd, WordChar, NulFree;
  }

  lemma SignStands(s: string, j: int)
    requires 0 <= j < |s| && !Ws(s[j]) && IsSym(s[j])
    ensures var t := AbsTok(s, TokAt(s, j).0); StandsAt(s, j, t) && TokAt(s, j).1 == j + |Show(t)|
  {
    var c := s[j];
    assert s[j..j + 1] == [c];
    if c == '>' && j + 1 < |s| && s[j + 1] == '>' {
      assert s[j..j + 2] == ">>";
    }
    hide WordEnd;
  }

  /** toks reads as ts from the k-th on. */
  ghost predicate ReadsAs(s: string, toks: seq<Tok<Span>>, ts: seq<Tok<string>>, k: int)
    requires 0 <= k <= |ts|
  {
    |toks| == |ts| - k && forall m :: 0 <= m < |toks| ==> AbsTok(s, toks[m]) == ts[k + m]
  }

  lemma ReadsOneMore(s: string, toks: seq<Tok<Span>>, ts: seq<Tok<string>>, k: int)
    requires 0 <= k < |ts| && toks != [] && AbsTok(s, toks[0]) == ts[k] && ReadsAs(s, toks[1..], ts, k + 1)
    ensures ReadsAs(s, toks, ts, k)
  {
    hide AbsTok;
    var more := toks[1..];
    forall m | 0 <= m < |toks| ensures AbsTok(s, toks[m]) == ts[k + m] {
      if m > 0 {
        assert toks[m] == more[m - 1];
        assert AbsTok(s, more[m - 1]) == ts[k + 1 + (m - 1)];
      }
    }
  }

  lemma TokensFrom(s: string, i: int)
    requires 0 <= i <= |s|
    ensures var j := SkipWs(s, i);
            if j == |s| then Tokens(s, i) == []
            else Tokens(s, i) != [] && Tokens(s, i)[0] == TokAt(s, j).0 && Tokens(s, i)[1..] == Tokens(s, TokAt(s, j).1)
  {
  }

  /** Lexing a line gives the tokens it is made of. */
  lemma {:induction false} LexRendered(s: string, i: int, ts: seq<Tok<string>>, k: int)
    requires 0 <= k <= |ts| && 0 <= i <= |s| && Renders(s, i, ts, k)
    ensures ReadsAs(s, Tokens(s, i), ts, k)
    decreases |ts| - k
  {
    hide StandsAt, Show, Tokens, AbsTok, TokAt;
    TokensFrom(s, i);
    if k < |ts| {
      LexOne(s, SkipWs(s, i), ts[k]);
      LexRendered(s, SkipWs(s, i) + |Show(ts[k])|, ts, k + 1);
      ReadsOneMore(s, Tokens(s, i), ts, k);
    }
  }

  /** And every line is made of the tokens it is lexed to. */
  lemma {:induction false} RendersItself(s: string, i: int, ts: seq<Tok<string>>, k: int)
    requires 0 <= k <= |ts| && 0 <= i <= |s| && NulFree(s) && ReadsAs(s, Tokens(s, i), ts, k)
    ensures Renders(s, i, ts, k)
    decreases |ts| - k
  {
    hide StandsAt, Show, Tokens, AbsTok, TokAt, NulFree;
    TokensFrom(s, i);
    if k < |ts| {
      var j, toks := SkipWs(s, i), Tokens(s, i);
      TokStands(s, j);
      ReadsRest(s, toks, ts, k);
      RendersItself(s, TokAt(s, j).1, ts, k + 1);
    }
  }

  lemma ReadsRest(s: string, toks: seq<Tok<Span>>, ts: seq<Tok<string>>, k: int)
    requires 0 <= k < |ts| && ReadsAs(s, toks, ts, k)
    ensures toks != [] && AbsTok(s, toks[0]) == ts[k] && ReadsAs(s, toks[1..], ts, k + 1)
  {
    hide AbsTok;
    forall m | 0 <= m < |toks| - 1 ensures AbsTok(s, toks[1..][m]) == ts[k + 1 + m] {
      assert AbsTok(s, toks[m + 1]) == ts[k + (m + 1)];
    }
  }

  // Lines with gaps are lines rendered.

  lemma {:induction false} SkipsGap(s: string, i: int, j: int)
    requires 0 <= i <= j <= |s| && (j < |s| ==> !Ws(s[j])) && forall k :: i <= k < j ==> Ws(s[k])
    ensures SkipWs(s, i) == j
    decreases j - i
  {
    if i < j { SkipsGap(s, i + 1, j); }
  }

  /** What the line from the k-th gap on begins with. */
  lemma LineBegins(ts: seq<Tok<string>>, gaps: seq<string>, k: int)
    requires 0 <= k <= |ts| && GapsOk(ts, gaps) && AllGood(ts)
    ensures var w := LineOf(ts, gaps, k);
            if gaps[k] != "" then w != "" && Ws(w[0]) else if k == |ts| then w == "" else w != "" && w[0] == Show(ts[k])[0]
  {
    if k < |ts| { assert Good(ts[k]); }
  }

  /** A token and what the line goes on with. */
  lemma Separated(ts: seq<Tok<string>>, gaps: seq<string>, k: int)
    requires 0 <= k < |ts| && GapsOk(ts, gaps) && AllGood(ts)
    ensures var rest := LineOf(ts, gaps, k + 1); Closed(rest, 0, ts[k])
  {
    hide LineOf;
    LineBegins(ts, gaps, k + 1);
    if k + 1 < |ts| { assert Good(ts[k + 1]); }
  }

  /** From position i on, s is w. */
  predicate Tail(s: string, i: int, w: string) { 0 <= i <= |s| && s[i..] == w }

  lemma GoesOn(s: string, i: int, a: string, b: string)
    requires Tail(s, i, a + b)
    ensures 0 <= i && i + |a| <= |s| && s[i..i + |a|] == a && Tail(s, i + |a|, b)
  {
    assert |s[i..]| == |s| - i;
  }

  lemma TailBegins(s: string, i: int, w: string)
    requires Tail(s, i, w)
    ensures 0 <= i <= |s| && (i < |s| <==> w != "") && (i < |s| ==> s[i] == w[0])
  {
  }

  lemma GapIn(s: string, i: int, g: string, after: string)
    requires Tail(s, i, g + after) && AllWs(g) && (after != "" ==> !Ws(after[0]))
    ensures 0 <= i && i + |g| <= |s| && SkipWs(s, i) == i + |g| && Tail(s, i + |g|, after)
  {
    GoesOn(s, i, g, after);
    var j := i + |g|;
    TailBegins(s, j, after);
    hide Tail;
    assert forall m :: i <= m < j ==> s[m] == s[i..j][m - i];
    SkipsGap(s, i, j);
  }

  lemma LineParts(ts: seq<Tok<string>>, gaps: seq<string>, k: int)
    requires 0 <= k <= |ts| && GapsOk(ts, gaps)
    ensures AllWs(gaps[k]) && LineOf(ts, gaps, k) == gaps[k] + if k == |ts| then "" else Show(ts[k]) + LineOf(ts, gaps, k + 1)
  {
    hide Show, AllWs, Touch;
  }

  lemma {:induction false} LineRenders(s: string, i: int, ts: seq<Tok<string>>, gaps: seq<string>, k: int)
    requires 0 <= k <= |ts| && |gaps| == |ts| + 1 && GapsOk(ts, gaps) && AllGood(ts)
    requires 0 <= i <= |s| && Tail(s, i, LineOf(ts, gaps, k))
    ensures Renders(s, i, ts, k)
    decreases |ts| - k
  {
    hide StandsAt, Show, SkipWs, Good, LineOf, GapsOk, AllGood, AllWs, Tail;
    LineParts(ts, gaps, k);
    if k == |ts| {
      GapIn(s, i, gaps[k], "");
      TailBegins(s, i + |gaps[k]|, "");
    } else {
      var after := Show(ts[k]) + LineOf(ts, gaps, k + 1);
      ShowBegins(ts, k, LineOf(ts, gaps, k + 1));
      GapIn(s, i, gaps[k], after);
      var j := i + |gaps[k]|;
      TokenInLine(s, j, ts, gaps, k);
      LineRenders(s, j + |Show(ts[k])|, ts, gaps, k + 1);
    }
  }

  lemma ShowBegins(ts: seq<Tok<string>>, k: int, rest: string)
    requires 0 <= k < |ts| && AllGood(ts)
    ensures var w := Show(ts[k]) + rest; w != "" && !Ws(w[0])
  {
    assert Good(ts[k]);
  }

  lemma TokenInLine(s: string, j: int, ts: seq<Tok<string>>, gaps: seq<string>, k: int)
    requires 0 <= k < |ts| && |gaps| == |ts| + 1 && GapsOk(ts, gaps) && AllGood(ts)
    requires Tail(s, j, Show(ts[k]) + LineOf(ts, gaps, k + 1))
    ensures StandsAt(s, j, ts[k]) && j + |Show(ts[k])| <= |s| && Tail(s, j + |Show(ts[k])|, LineOf(ts, gaps, k + 1))
  {
    hide LineOf, GapsOk, Show, Good, Tail;
    var t, rest := ts[k], LineOf(ts, gaps, k + 1);
    assert Good(t);
    Separated(ts, gaps, k);
    GoesOn(s, j, Show(t), rest);
    TailBegins(s, j + |Show(t)|, rest);
  }

  lemma TokenThere(s: string, j: int, t: Tok<string>)
    requires StandsAt(s, j, t)
    ensures 0 <= j && j + |Show(t)| <= |s| && s[j..j + |Show(t)|] == Show(t) && Good(t)
    ensures Closed(s, j + |Show(t)|, t)
  {
  }

  lemma NoTouch(s: string, i: int, a: Tok<string>, b: Tok<string>)
    requires 0 <= i <= |s| && Closed(s, i, a) && StandsAt(s, i, b)
    ensures !Touch(a, b)
  {
    LexOne(s, i, b);
    assert s[i..i + |Show(b)|][0] == s[i];
  }

  /** From the k-th on the gaps are as they must be. */
  ghost predicate GapsFine(ts: seq<Tok<string>>, gaps: seq<string>, k: int) {
    && |gaps| == |ts| + 1 && 0 <= k <= |ts| && (forall m :: k <= m <= |ts| ==> AllWs(gaps[m]))
    && (forall m :: k <= m < |ts| ==> Good(ts[m]))
    && forall m :: k <= m < |ts| && 0 < m && gaps[m] == "" ==> !Touch(ts[m - 1], ts[m])
  }

  lemma {:induction false} LineSame(ts: seq<Tok<string>>, g: seq<string>, h: seq<string>, k: int)
    requires 0 <= k <= |ts| && |g| == |h| == |ts| + 1 && forall m :: k <= m <= |ts| ==> g[m] == h[m]
    ensures LineOf(ts, g, k) == LineOf(ts, h, k)
    decreases |ts| - k
  {
    if k < |ts| { LineSame(ts, g, h, k + 1); }
  }

  lemma OneMoreGap(ts: seq<Tok<string>>, gaps: seq<string>, k: int, g: string)
    requires 0 <= k < |ts| && GapsFine(ts, gaps, k + 1) && AllWs(g) && Good(ts[k])
    requires k > 0 && g == "" ==> !Touch(ts[k - 1], ts[k])
    ensures GapsFine(ts, gaps[k := g], k) && LineOf(ts, gaps[k := g], k) == g + (Show(ts[k]) + LineOf(ts, gaps, k + 1))
  {
    hide Touch, AllWs, Good, Show;
    LineSame(ts, gaps, gaps[k := g], k + 1);
  }

  lemma LastGap(ts: seq<Tok<string>>, g: string) returns (gaps: seq<string>)
    requires AllWs(g)
    ensures |gaps| == |ts| + 1 && GapsFine(ts, gaps, |ts|) && LineOf(ts, gaps, |ts|) == g
  {
    gaps := seq(|ts| + 1, _ => g);
  }

  lemma GapAt(s: string, i: int) returns (j: int)
    requires 0 <= i <= |s|
    ensures j == SkipWs(s, i) && i <= j <= |s| && AllWs(s[i..j]) && (i == j ==> s[i..j] == "") && (j == |s| ==> s[i..j] == s[i..])
    ensures i < j ==> s[i..j] != ""
  {
    j := SkipWs(s, i);
  }

  lemma CutInThree(s: string, i: int, j: int, e: int)
    requires 0 <= i <= j <= e <= |s|
    ensures s[i..j] + (s[j..e] + s[e..]) == s[i..]
  {
  }

  /** The gaps of a line. */
  lemma {:induction false} FindGaps(s: string, i: int, ts: seq<Tok<string>>, k: int) returns (gaps: seq<string>)
    requires 0 <= k <= |ts| && 0 <= i <= |s| && Renders(s, i, ts, k) && (k > 0 ==> Closed(s, i, ts[k - 1]))
    ensures |gaps| == |ts| + 1 && GapsFine(ts, gaps, k) && LineOf(ts, gaps, k) == s[i..]
    decreases |ts| - k
  {
    hide GapsFine, LineOf, AllWs, Touch, Show, SkipWs, StandsAt, Closed;
    var j := GapAt(s, i);
    if k == |ts| {
      gaps := LastGap(ts, s[i..j]);
    } else {
      var e := j + |Show(ts[k])|;
      TokenThere(s, j, ts[k]);
      if k > 0 && i == j { NoTouch(s, i, ts[k - 1], ts[k]); }
      var rest := FindGaps(s, e, ts, k + 1);
      OneMoreGap(ts, rest, k, s[i..j]);
      gaps := rest[k := s[i..j]];
      CutInThree(s, i, j, e);
    }
  }

  /** What gettoken makes of a line, exactly: a line lexes to ts if and only if it is ts with some white space around the
      tokens, and some between any two that would run together. */
  lemma LexExactly(s: string, ts: seq<Tok<string>>)
    requires NulFree(s)
    ensures AbsToks(s, Tokens(s, 0)) == ts <==> exists gaps :: LineIs(s, ts, gaps)
  {
    hide LineIs, NulFree, Renders, Tokens, AbsTok;
    if AbsToks(s, Tokens(s, 0)) == ts {
      RendersItself(s, 0, ts, 0);
      var gaps := FindGaps(s, 0, ts, 0);
      FineLine(s, ts, gaps);
    }
    if gaps :| LineIs(s, ts, gaps) {
      LexLine(s, ts, gaps);
    }
  }

  /** s is the tokens ts with those gaps. */
  ghost predicate LineIs(s: string, ts: seq<Tok<string>>, gaps: seq<string>) {
    AllGood(ts) && GapsOk(ts, gaps) && s == LineOf(ts, gaps, 0)
  }

  lemma FineLine(s: string, ts: seq<Tok<string>>, gaps: seq<string>)
    requires GapsFine(ts, gaps, 0) && LineOf(ts, gaps, 0) == s[0..]
    ensures LineIs(s, ts, gaps)
  {
    hide LineOf, Good, AllWs, Touch;
    assert s[0..] == s;
  }

  lemma LexLine(s: string, ts: seq<Tok<string>>, gaps: seq<string>)
    requires LineIs(s, ts, gaps)
    ensures AbsToks(s, Tokens(s, 0)) == ts
  {
    hide LineOf, AllGood, Renders, Tokens, AbsTok, AllWs, Touch;
    assert s[0..] == s;
    LineRenders(s, 0, ts, gaps, 0);
    LexRendered(s, 0, ts, 0);
    ReadsWhole(s, Tokens(s, 0), ts);
  }

  lemma ReadsWhole(s: string, toks: seq<Tok<Span>>, ts: seq<Tok<string>>)
    requires ReadsAs(s, toks, ts, 0)
    ensures AbsToks(s, toks) == ts
  {
    hide AbsTok;
  }

  /** Round trip: a tree of words within the argument limit, printed with any white space, or with none but where two words
      or two signs would run together, parses back to that tree and uses up the line. */
  lemma RoundTrip(t: Cmd<string>, gaps: seq<string>)
    requires Fits(t) && Wordy(t) && GapsOk(ToksLine(t), gaps)
    ensures var s := LineOf(ToksLine(t), gaps, 0);
            var r := ParseLine(Tokens(s, 0));
            r.Ok? && r.rest == [] && AbsCmd(s, r.cmd) == t
  {
    var s := LineOf(ToksLine(t), gaps, 0);
    GoodLine(t);
    LexLine(s, ToksLine(t), gaps);
    AbsParseLine(s, Tokens(s, 0));
    ParsePrinted(t);
    hide LineOf, Tokens, ParseLine, ToksLine, Wordy, Fits, AllGood, GapsOk;
  }

  /** The gaps with nothing in them that can be spared. */
  function TightGaps(ts: seq<Tok<string>>): seq<string> {
    seq(|ts| + 1, k requires 0 <= k <= |ts| => if 0 < k < |ts| && Touch(ts[k - 1], ts[k]) then " " else "")
  }

  lemma TightGapsOk(ts: seq<Tok<string>>)
    ensures GapsOk(ts, TightGaps(ts))
  {
    hide Touch;
    assert AllWs(" ") && AllWs("");
  }
}
