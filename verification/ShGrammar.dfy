/** The shell's grammar: command trees over words of any type, what the parser of sh.c makes of a list of tokens, and a
    printer that it inverts. */
module ShGrammar {
  const MAXARGS := 10

  datatype Mode = Read | Write | Append

  datatype Redir<W> = Redir(mode: Mode, file: W)

  datatype Cmd<W> =
    | Exec(argv: seq<W>)
    | Redirected(cmd: Cmd<W>, redir: Redir<W>)
    | Pipe(left: Cmd<W>, right: Cmd<W>)
    | List(left: Cmd<W>, right: Cmd<W>)
    | Back(cmd: Cmd<W>)

  /** A word, a redirection sign, or one of | ( ) ; & */
  datatype Tok<W> = Word(w: W) | Sign(mode: Mode) | Sym(c: char)

  datatype Error = Syntax | MissingFile | MissingParen | TooManyArgs

  datatype Result<W> = Ok(cmd: Cmd<W>, rest: seq<Tok<W>>) | Panic(e: Error)

  datatype Redirs<W> = Redirs(redirs: seq<Redir<W>>, rest: seq<Tok<W>>) | NoFile

  /** The command with redirections around it, the last one outermost. */
  function Wrap<W>(cmd: Cmd<W>, rs: seq<Redir<W>>): Cmd<W>
    decreases |rs|
  {
    if rs == [] then cmd else Redirected(Wrap(cmd, rs[..|rs| - 1]), rs[|rs| - 1])
  }

  predicate Starts<W>(ts: seq<Tok<W>>, cs: string) {
    ts != [] && ts[0].Sym? && ts[0].c in cs
  }

  /** parseredirs: takes sign-and-file pairs while there are any. */
  function ParseRedirs<W>(rs: seq<Redir<W>>, ts: seq<Tok<W>>): (r: Redirs<W>)
    ensures r.Redirs? ==> |r.rest| <= |ts|
    decreases |ts|
  {
    if ts == [] || !ts[0].Sign? then Redirs(rs, ts)
    else if |ts| == 1 || !ts[1].Word? then NoFile
    else ParseRedirs(rs + [Redir(ts[0].mode, ts[1].w)], ts[2..])
  }

  /** The loop of parseexec, with args and redirections gathered so far. */
  function ParseArgs<W>(args: seq<W>, rs: seq<Redir<W>>, ts: seq<Tok<W>>): (r: Result<W>)
    ensures r.Ok? ==> |r.rest| <= |ts|
    decreases |ts|
  {
    if ts == [] || Starts(ts, "|)&;") then Ok(Wrap(Exec(args), rs), ts)
    else if !ts[0].Word? then Panic(Syntax)
    else if |args| + 1 >= MAXARGS then Panic(TooManyArgs)
    else
      match ParseRedirs(rs, ts[1..])
      case NoFile => Panic(MissingFile)
      case Redirs(rs', rest) => ParseArgs(args + [ts[0].w], rs', rest)
  }

  function ParseExec<W>(ts: seq<Tok<W>>): (r: Result<W>)
    ensures r.Ok? ==> |r.rest| <= |ts|
    decreases |ts|, 0
  {
    if Starts(ts, "(") then
      var inner := ParseLine(ts[1..]);
      if inner.Panic? then inner
      else if !Starts(inner.rest, ")") then Panic(MissingParen)
      else
        match ParseRedirs([], inner.rest[1..])
        case NoFile => Panic(MissingFile)
        case Redirs(rs, rest) => Ok(Wrap(inner.cmd, rs), rest)
    else
      match ParseRedirs([], ts)
      case NoFile => Panic(MissingFile)
      case Redirs(rs, rest) => ParseArgs([], rs, rest)
  }

  function ParsePipe<W>(ts: seq<Tok<W>>): (r: Result<W>)
    ensures r.Ok? ==> |r.rest| <= |ts|
    decreases |ts|, 1
  {
    var left := ParseExec(ts);
    if left.Panic? || !Starts(left.rest, "|") then left
    else
      var right := ParsePipe(left.rest[1..]);
      if right.Panic? then right else Ok(Pipe(left.cmd, right.cmd), right.rest)
  }

  /** The loop of parseline over &. */
  function ParseBacks<W>(cmd: Cmd<W>, ts: seq<Tok<W>>): (r: Result<W>)
    ensures r.Ok? && |r.rest| <= |ts|
    decreases |ts|
  {
    if Starts(ts, "&") then ParseBacks(Back(cmd), ts[1..]) else Ok(cmd, ts)
  }

  function ParseLine<W>(ts: seq<Tok<W>>): (r: Result<W>)
    ensures r.Ok? ==> |r.rest| <= |ts|
    decreases |ts|, 2
  {
    var first := ParsePipe(ts);
    if first.Panic? then first
    else
      var left := ParseBacks(first.cmd, first.rest);
      if !Starts(left.rest, ";") then left
      else
        var right := ParseLine(left.rest[1..]);
        if right.Panic? then right else Ok(List(left.cmd, right.cmd), right.rest)
  }

  // The grammar, without a parser: a form is a line as it is written.

  /** Words and redirections come in any order. */
  datatype Item<W> = Arg(w: W) | Into(r: Redir<W>)

  datatype Form<W> =
    | Simple(items: seq<Item<W>>)
    | Block(line: Form<W>, rs: seq<Redir<W>>)
    | Bar(left: Form<W>, right: Form<W>)
    | Amp(cmd: Form<W>)
    | Semi(left: Form<W>, right: Form<W>)

  predicate IsCommand<W>(f: Form<W>) { f.Simple? || f.Block? }

  predicate IsPipeline<W>(f: Form<W>) { IsCommand(f) || f.Bar? }

  predicate IsGroup<W>(f: Form<W>) { IsPipeline(f) || f.Amp? }

  /** Bars join commands, ampersands follow pipelines, and semicolons join those. */
  predicate Proper<W>(f: Form<W>) {
    match f
    case Simple(items) => true
    case Block(line, rs) => Proper(line)
    case Bar(l, r) => IsCommand(l) && IsPipeline(r) && Proper(l) && Proper(r)
    case Amp(c) => IsGroup(c) && Proper(c)
    case Semi(l, r) => IsGroup(l) && Proper(l) && Proper(r)
  }

  function Args<W>(items: seq<Item<W>>): seq<W> {
    if items == [] then [] else (if items[0].Arg? then [items[0].w] else []) + Args(items[1..])
  }

  function Intos<W>(items: seq<Item<W>>): seq<Redir<W>> {
    if items == [] then [] else (if items[0].Into? then [items[0].r] else []) + Intos(items[1..])
  }

  /** No command has more words than there is room for. */
  predicate InLimit<W>(f: Form<W>) {
    match f
    case Simple(items) => |Args(items)| < MAXARGS
    case Block(line, rs) => InLimit(line)
    case Bar(l, r) => InLimit(l) && InLimit(r)
    case Amp(c) => InLimit(c)
    case Semi(l, r) => InLimit(l) && InLimit(r)
  }

  function ItemToks<W>(items: seq<Item<W>>): seq<Tok<W>> {
    if items == [] then [] else OneItem(items[0]) + ItemToks(items[1..])
  }

  function OneItem<W>(it: Item<W>): seq<Tok<W>> {
    match it
    case Arg(w) => [Word(w)]
    case Into(r) => [Sign(r.mode), Word(r.file)]
  }

  function RedirToks<W>(rs: seq<Redir<W>>): seq<Tok<W>> {
    if rs == [] then [] else [Sign(rs[0].mode), Word(rs[0].file)] + RedirToks(rs[1..])
  }

  /** The tokens of a form. */
  function Flat<W>(f: Form<W>): seq<Tok<W>> {
    match f
    case Simple(items) => ItemToks(items)
    case Block(line, rs) => [Sym('(')] + Flat(line) + [Sym(')')] + RedirToks(rs)
    case Bar(l, r) => Flat(l) + [Sym('|')] + Flat(r)
    case Amp(c) => Flat(c) + [Sym('&')]
    case Semi(l, r) => Flat(l) + [Sym(';')] + Flat(r)
  }

  /** The command it stands for. */
  function Tree<W>(f: Form<W>): Cmd<W> {
    match f
    case Simple(items) => Wrap(Exec(Args(items)), Intos(items))
    case Block(line, rs) => Wrap(Tree(line), rs)
    case Bar(l, r) => Pipe(Tree(l), Tree(r))
    case Amp(c) => Back(Tree(c))
    case Semi(l, r) => List(Tree(l), Tree(r))
  }

  // Every form within the limit is parsed to its tree.

  lemma {:induction false} RedirsBack<W>(acc: seq<Redir<W>>, rs: seq<Redir<W>>, rest: seq<Tok<W>>)
    requires rest == [] || !rest[0].Sign?
    ensures ParseRedirs(acc, RedirToks(rs) + rest) == Redirs(acc + rs, rest)
    decreases |rs|
  {
    var ts := RedirToks(rs) + rest;
    if rs == [] {
      assert ts == rest && acc + rs == acc;
    } else {
      assert ts[0] == Sign(rs[0].mode) && ts[1] == Word(rs[0].file) && ts[2..] == RedirToks(rs[1..]) + rest;
      RedirsBack(acc + [rs[0]], rs[1..], rest);
      assert acc + [rs[0]] + rs[1..] == acc + rs;
    }
  }

  /** parseexec past its first test, with words and redirections gathered so far. */
  function Gather<W>(args: seq<W>, rs: seq<Redir<W>>, ts: seq<Tok<W>>): Result<W> {
    match ParseRedirs(rs, ts)
    case NoFile => Panic(MissingFile)
    case Redirs(rs', rest) => ParseArgs(args, rs', rest)
  }

  lemma GatherArg<W>(args: seq<W>, rs: seq<Redir<W>>, w: W, ts: seq<Tok<W>>)
    ensures Gather(args, rs, [Word(w)] + ts) == if |args| + 1 >= MAXARGS then Panic(TooManyArgs) else Gather(args + [w], rs, ts)
  {
    var all := [Word(w)] + ts;
    assert all[0] == Word(w) && all[1..] == ts;
  }

  lemma GatherInto<W>(args: seq<W>, rs: seq<Redir<W>>, r: Redir<W>, ts: seq<Tok<W>>)
    ensures Gather(args, rs, [Sign(r.mode), Word(r.file)] + ts) == Gather(args, rs + [r], ts)
  {
    var all := [Sign(r.mode), Word(r.file)] + ts;
    assert all[0] == Sign(r.mode) && all[1] == Word(r.file) && all[2..] == ts;
    hide ParseArgs;
  }

  lemma GatherEnd<W>(args: seq<W>, rs: seq<Redir<W>>, rest: seq<Tok<W>>)
    requires rest == [] || Starts(rest, "|)&;")
    ensures Gather(args, rs, rest) == Ok(Wrap(Exec(args), rs), rest)
  {
  }

  /** A first item and more, next to what was gathered and what follows. */
  lemma FirstItem<W>(args: seq<W>, rs: seq<Redir<W>>, it: Item<W>, more: seq<Item<W>>, rest: seq<Tok<W>>)
    ensures ItemToks([it] + more) + rest == OneItem(it) + (ItemToks(more) + rest)
    ensures args + Args([it] + more) == (if it.Arg? then args + [it.w] else args) + Args(more)
    ensures rs + Intos([it] + more) == (if it.Into? then rs + [it.r] else rs) + Intos(more)
  {
    hide ItemToks, Args, Intos;
    ConsItem(it, more);
    Assoc(OneItem(it), ItemToks(more), rest);
    Assoc(args, if it.Arg? then [it.w] else [], Args(more));
    Assoc(rs, if it.Into? then [it.r] else [], Intos(more));
    assert args + [] == args && rs + [] == rs;
  }

  lemma ConsItem<W>(it: Item<W>, more: seq<Item<W>>)
    ensures ItemToks([it] + more) == OneItem(it) + ItemToks(more)
    ensures Args([it] + more) == (if it.Arg? then [it.w] else []) + Args(more)
    ensures Intos([it] + more) == (if it.Into? then [it.r] else []) + Intos(more)
  {
    assert ([it] + more)[1..] == more;
  }

  lemma Assoc<T>(a: seq<T>, b: seq<T>, c: seq<T>)
    ensures a + b + c == a + (b + c)
  {
  }

  lemma NoItem<W>(args: seq<W>, rs: seq<Redir<W>>, rest: seq<Tok<W>>)
    ensures ItemToks<W>([]) + rest == rest && args + Args<W>([]) == args && rs + Intos<W>([]) == rs
  {
  }

  lemma {:induction false} ItemsBack<W>(args: seq<W>, rs: seq<Redir<W>>, items: seq<Item<W>>, rest: seq<Tok<W>>)
    requires (rest == [] || Starts(rest, "|)&;")) && |args + Args(items)| < MAXARGS
    ensures Gather(args, rs, ItemToks(items) + rest) == Ok(Wrap(Exec(args + Args(items)), rs + Intos(items)), rest)
    decreases |items|
  {
    hide Gather, Wrap, ItemToks, Args, Intos, Starts;
    if items == [] {
      NoItem(args, rs, rest);
      GatherEnd(args, rs, rest);
    } else {
      var it, more := items[0], items[1..];
      assert items == [it] + more;
      FirstItem(args, rs, it, more, rest);
      match it
      case Arg(w) =>
        GatherArg(args, rs, w, ItemToks(more) + rest);
        ItemsBack(args + [w], rs, more, rest);
      case Into(r) =>
        GatherInto(args, rs, r, ItemToks(more) + rest);
        ItemsBack(args, rs + [r], more, rest);
    }
  }

  lemma SimpleBack<W>(items: seq<Item<W>>, rest: seq<Tok<W>>)
    requires (rest == [] || Starts(rest, "|)&;")) && |Args(items)| < MAXARGS
    ensures ParseExec(ItemToks(items) + rest) == Ok(Wrap(Exec(Args(items)), Intos(items)), rest)
  {
    var ts := ItemToks(items) + rest;
    NoParen(items, rest);
    assert [] + Args(items) == Args(items) && [] + Intos(items) == Intos(items);
    ItemsBack([], [], items, rest);
    hide ItemToks, Args, Intos, Wrap, ParseArgs, ParseRedirs;
  }

  lemma NoParen<W>(items: seq<Item<W>>, rest: seq<Tok<W>>)
    requires rest == [] || Starts(rest, "|)&;")
    ensures !Starts(ItemToks(items) + rest, "(")
  {
    if items != [] {
      assert (ItemToks(items) + rest)[0] == OneItem(items[0])[0];
    } else {
      assert ItemToks(items) + rest == rest;
    }
  }

  lemma OpenBlock<W>(b: Cmd<W>, inner: seq<Tok<W>>, tail: seq<Tok<W>>, rs: seq<Redir<W>>, rest: seq<Tok<W>>)
    requires ParseLine(inner + ([Sym(')')] + tail)) == Ok(b, [Sym(')')] + tail) && ParseRedirs([], tail) == Redirs(rs, rest)
    ensures ParseExec([Sym('(')] + (inner + ([Sym(')')] + tail))) == Ok(Wrap(b, rs), rest)
  {
    hide ParseLine, ParseRedirs, Wrap;
    var after := [Sym(')')] + tail;
    assert ([Sym('(')] + (inner + after))[1..] == inner + after;
    assert after[1..] == tail;
  }

  lemma RegroupBlock<T>(a: seq<T>, b: seq<T>, c: seq<T>, d: seq<T>, e: seq<T>)
    ensures a + b + c + d + e == a + (b + (c + (d + e)))
  {
  }

  lemma {:induction false} CommandBack<W>(f: Form<W>, rest: seq<Tok<W>>)
    requires IsCommand(f) && Proper(f) && InLimit(f) && (rest == [] || Starts(rest, "|)&;"))
    ensures ParseExec(Flat(f) + rest) == Ok(Tree(f), rest)
    decreases f, 0
  {
    match f
    case Simple(items) => SimpleBack(items, rest);
    case Block(line, rs) =>
      hide RedirToks, Wrap, ParseExec, ParseLine;
      var tail := RedirToks(rs) + rest;
      FormBack(line, [Sym(')')] + tail);
      RedirsBack([], rs, rest);
      assert [] + rs == rs;
      OpenBlock(Tree(line), Flat(line), tail, rs, rest);
      RegroupBlock([Sym('(')], Flat(line), [Sym(')')], RedirToks(rs), rest);
  }

  lemma Regroup<T>(a: seq<T>, b: seq<T>, c: seq<T>, d: seq<T>)
    ensures a + b + c + d == a + (b + (c + d))
  {
  }

  /** An operand, a bar and the rest of a pipeline. */
  lemma JoinPipe<W>(lt: seq<Tok<W>>, l: Cmd<W>, after: seq<Tok<W>>, r: Cmd<W>, rest: seq<Tok<W>>)
    requires ParseExec(lt + ([Sym('|')] + after)) == Ok(l, [Sym('|')] + after) && ParsePipe(after) == Ok(r, rest)
    ensures ParsePipe(lt + ([Sym('|')] + after)) == Ok(Pipe(l, r), rest)
  {
    hide ParseExec;
    assert ([Sym('|')] + after)[1..] == after;
  }

  /** A pipeline with its ampersands, a semicolon and the rest of the line. */
  lemma JoinList<W>(lt: seq<Tok<W>>, l: Cmd<W>, after: seq<Tok<W>>, r: Cmd<W>, rest: seq<Tok<W>>)
    requires var p := ParsePipe(lt + ([Sym(';')] + after));
             p.Ok? && ParseBacks(p.cmd, p.rest) == ParseBacks(l, [Sym(';')] + after)
    requires ParseLine(after) == Ok(r, rest)
    ensures ParseLine(lt + ([Sym(';')] + after)) == Ok(List(l, r), rest)
  {
    hide ParsePipe;
    assert ([Sym(';')] + after)[1..] == after;
  }

  /** A line that is a pipeline with its ampersands. */
  lemma LastOfLine<W>(ts: seq<Tok<W>>, t: Cmd<W>, rest: seq<Tok<W>>)
    requires var p := ParsePipe(ts); p.Ok? && ParseBacks(p.cmd, p.rest) == ParseBacks(t, rest)
    requires rest == [] || Starts(rest, ")")
    ensures ParseLine(ts) == Ok(t, rest)
  {
    hide ParsePipe;
  }

  lemma OneBack<W>(c: Cmd<W>, rest: seq<Tok<W>>)
    ensures ParseBacks(c, [Sym('&')] + rest) == ParseBacks(Back(c), rest)
  {
    assert ([Sym('&')] + rest)[1..] == rest;
  }

  lemma {:induction false} PipelineBack<W>(f: Form<W>, rest: seq<Tok<W>>)
    requires IsPipeline(f) && Proper(f) && InLimit(f) && (rest == [] || Starts(rest, ")&;"))
    ensures ParsePipe(Flat(f) + rest) == Ok(Tree(f), rest)
    decreases f, 1
  {
    if f.Bar? {
      hide ParseExec, ParsePipe;
      var after := Flat(f.right) + rest;
      CommandBack(f.left, [Sym('|')] + after);
      PipelineBack(f.right, rest);
      JoinPipe(Flat(f.left), Tree(f.left), after, Tree(f.right), rest);
      Regroup(Flat(f.left), [Sym('|')], Flat(f.right), rest);
    } else {
      CommandBack(f, rest);
      assert !Starts(rest, "|");
      hide Flat, ParseExec;
    }
  }

  /** After the pipeline and its ampersands the parser stands where it would with the tree in hand. */
  lemma {:induction false} GroupBack<W>(f: Form<W>, rest: seq<Tok<W>>)
    requires IsGroup(f) && Proper(f) && InLimit(f) && (rest == [] || Starts(rest, ")&;"))
    ensures var p := ParsePipe(Flat(f) + rest); p.Ok? && ParseBacks(p.cmd, p.rest) == ParseBacks(Tree(f), rest)
    decreases f, 2
  {
    if f.Amp? {
      assert Flat(f) + rest == Flat(f.cmd) + ([Sym('&')] + rest);
      hide ParsePipe, ParseBacks;
      GroupBack(f.cmd, [Sym('&')] + rest);
      OneBack(Tree(f.cmd), rest);
    } else {
      PipelineBack(f, rest);
    }
  }

  lemma {:induction false} FormBack<W>(f: Form<W>, rest: seq<Tok<W>>)
    requires Proper(f) && InLimit(f) && (rest == [] || Starts(rest, ")"))
    ensures ParseLine(Flat(f) + rest) == Ok(Tree(f), rest)
    decreases f, 3
  {
    if f.Semi? {
      hide ParsePipe, ParseBacks, ParseLine;
      var after := Flat(f.right) + rest;
      GroupBack(f.left, [Sym(';')] + after);
      FormBack(f.right, rest);
      JoinList(Flat(f.left), Tree(f.left), after, Tree(f.right), rest);
      Regroup(Flat(f.left), [Sym(';')], Flat(f.right), rest);
    } else {
      GroupBack(f, rest);
      LastOfLine(Flat(f) + rest, Tree(f), rest);
    }
  }

  // And whatever is parsed is such a form.

  lemma ConsRedir<W>(r: Redir<W>, more: seq<Redir<W>>)
    ensures RedirToks([r] + more) == [Sign(r.mode), Word(r.file)] + RedirToks(more)
  {
    assert ([r] + more)[1..] == more;
  }

  lemma {:induction false} RedirsFound<W>(acc: seq<Redir<W>>, ts: seq<Tok<W>>) returns (rs: seq<Redir<W>>)
    requires ParseRedirs(acc, ts).Redirs?
    ensures var r := ParseRedirs(acc, ts); r.redirs == acc + rs && RedirToks(rs) + r.rest == ts
    decreases |ts|
  {
    rs := [];
    if ts == [] || !ts[0].Sign? {
      assert acc + rs == acc && RedirToks(rs) + ts == ts;
    } else {
      var one := Redir(ts[0].mode, ts[1].w);
      assert ts == [ts[0], ts[1]] + ts[2..];
      var more := RedirsFound(acc + [one], ts[2..]);
      rs := [one] + more;
      ConsRedir(one, more);
      var rest := ParseRedirs(acc, ts).rest;
      hide RedirToks, ParseRedirs;
      Assoc([ts[0], ts[1]], RedirToks(more), rest);
      Assoc(acc, [one], more);
    }
  }

  /** What the next token is when something more is gathered. */
  lemma GatherMore<W>(args: seq<W>, rs: seq<Redir<W>>, ts: seq<Tok<W>>)
    requires Gather(args, rs, ts).Ok? && ts != []
    ensures ts[0].Sign? ==> |ts| > 1 && ts[1].Word? && ts == [ts[0], ts[1]] + ts[2..]
    ensures ts[0].Word? ==> |args| + 1 < MAXARGS && ts == [ts[0]] + ts[1..]
    ensures ts[0].Sym? ==> Gather(args, rs, ts) == Ok(Wrap(Exec(args), rs), ts)
  {
  }

  lemma {:induction false} ItemsFound<W>(args: seq<W>, rs: seq<Redir<W>>, ts: seq<Tok<W>>) returns (items: seq<Item<W>>)
    requires Gather(args, rs, ts).Ok? && |args| < MAXARGS
    ensures var r := Gather(args, rs, ts);
            && r.cmd == Wrap(Exec(args + Args(items)), rs + Intos(items)) && ItemToks(items) + r.rest == ts
            && |args + Args(items)| < MAXARGS
    decreases |ts|
  {
    hide Gather, Wrap, ItemToks, Args, Intos;
    if ts == [] || ts[0].Sym? {
      items := [];
      NoItem(args, rs, ts);
      if ts == [] { GatherEnd(args, rs, ts); } else { GatherMore(args, rs, ts); }
    } else {
      GatherMore(args, rs, ts);
      var it, more;
      if ts[0].Sign? {
        it := Into(Redir(ts[0].mode, ts[1].w));
        GatherInto(args, rs, it.r, ts[2..]);
        more := ItemsFound(args, rs + [it.r], ts[2..]);
      } else {
        it := Arg(ts[0].w);
        GatherArg(args, rs, it.w, ts[1..]);
        more := ItemsFound(args + [it.w], rs, ts[1..]);
      }
      items := [it] + more;
      FirstItem(args, rs, it, more, Gather(args, rs, ts).rest);
    }
  }

  lemma {:induction false} CommandFound<W>(ts: seq<Tok<W>>) returns (f: Form<W>)
    requires ParseExec(ts).Ok?
    ensures IsCommand(f) && Proper(f) && InLimit(f)
    ensures Tree(f) == ParseExec(ts).cmd && Flat(f) + ParseExec(ts).rest == ts
    decreases |ts|, 0
  {
    if Starts(ts, "(") {
      BlockParts(ts);
      var inner := ParseLine(ts[1..]);
      var line := FormFound(ts[1..]);
      var rs := RedirsFound([], inner.rest[1..]);
      f := Block(line, rs);
      assert [] + rs == rs;
      hide ParseExec, ParseLine, ParseRedirs, RedirToks, Wrap, Starts;
      RegroupBlock([Sym('(')], Flat(line), [Sym(')')], RedirToks(rs), ParseExec(ts).rest);
    } else {
      var items := ItemsFound([], [], ts);
      f := Simple(items);
      assert [] + Args(items) == Args(items) && [] + Intos(items) == Intos(items);
    }
  }

  /** A parenthesized line that was parsed. */
  lemma BlockParts<W>(ts: seq<Tok<W>>)
    requires Starts(ts, "(") && ParseExec(ts).Ok?
    ensures ts == [Sym('(')] + ts[1..]
    ensures var inner := ParseLine(ts[1..]);
            && inner.Ok? && inner.rest != [] && inner.rest == [Sym(')')] + inner.rest[1..]
            && var r := ParseRedirs([], inner.rest[1..]);
               r.Redirs? && ParseExec(ts) == Ok(Wrap(inner.cmd, r.redirs), r.rest)
  {
    hide ParseLine, ParseRedirs, Wrap;
  }

  lemma {:induction false} PipelineFound<W>(ts: seq<Tok<W>>) returns (f: Form<W>)
    requires ParsePipe(ts).Ok?
    ensures IsPipeline(f) && Proper(f) && InLimit(f)
    ensures Tree(f) == ParsePipe(ts).cmd && Flat(f) + ParsePipe(ts).rest == ts
    decreases |ts|, 1
  {
    f := CommandFound(ts);
    var left := ParseExec(ts);
    if Starts(left.rest, "|") {
      var l, after := f, left.rest[1..];
      var r := PipelineFound(after);
      f := Bar(l, r);
      assert left.rest == [Sym('|')] + after;
      Regroup(Flat(l), [Sym('|')], Flat(r), ParsePipe(after).rest);
    }
  }

  lemma {:induction false} BacksFound<W>(f0: Form<W>, ts: seq<Tok<W>>) returns (f: Form<W>)
    requires IsGroup(f0) && Proper(f0) && InLimit(f0)
    ensures IsGroup(f) && Proper(f) && InLimit(f)
    ensures var r := ParseBacks(Tree(f0), ts); Tree(f) == r.cmd && Flat(f) + r.rest == Flat(f0) + ts
    decreases |ts|
  {
    f := f0;
    if Starts(ts, "&") {
      assert Flat(Amp(f0)) == Flat(f0) + [Sym('&')] && Tree(Amp(f0)) == Back(Tree(f0));
      hide Flat, Tree, InLimit;
      f := BacksFound(Amp(f0), ts[1..]);
      assert ts == [Sym('&')] + ts[1..];
      Assoc(Flat(f0), [Sym('&')], ts[1..]);
    }
  }

  /** A line that was parsed. */
  lemma LineParts<W>(ts: seq<Tok<W>>)
    requires ParseLine(ts).Ok?
    ensures var p := ParsePipe(ts);
            && p.Ok?
            && var left := ParseBacks(p.cmd, p.rest);
               if Starts(left.rest, ";") then
                 && left.rest == [Sym(';')] + left.rest[1..]
                 && var r := ParseLine(left.rest[1..]); r.Ok? && ParseLine(ts) == Ok(List(left.cmd, r.cmd), r.rest)
               else ParseLine(ts) == left
  {
    hide ParsePipe, ParseBacks;
  }

  lemma {:induction false} FormFound<W>(ts: seq<Tok<W>>) returns (f: Form<W>)
    requires ParseLine(ts).Ok?
    ensures Proper(f) && InLimit(f) && Tree(f) == ParseLine(ts).cmd && Flat(f) + ParseLine(ts).rest == ts
    decreases |ts|, 2
  {
    LineParts(ts);
    var p := PipelineFound(ts);
    var first := ParsePipe(ts);
    f := BacksFound(p, first.rest);
    var left := ParseBacks(first.cmd, first.rest);
    if Starts(left.rest, ";") {
      var l, after := f, left.rest[1..];
      var r := FormFound(after);
      f := Semi(l, r);
      hide ParseLine, ParsePipe, ParseBacks, Starts;
      assert left.rest == [Sym(';')] + after;
      Regroup(Flat(l), [Sym(';')], Flat(r), ParseLine(after).rest);
    }
  }

  /** ts is the tokens of some form within the limit that stands for t. */
  ghost predicate Writes<W(!new)>(f: Form<W>, ts: seq<Tok<W>>, t: Cmd<W>) {
    Proper(f) && InLimit(f) && Flat(f) == ts && Tree(f) == t
  }

  /** The parser accepts exactly the lines of the grammar within the argument limit, and gives the tree they stand for;
      every other list of tokens it refuses or does not use up. */
  lemma ParsesExactly<W(!new)>(ts: seq<Tok<W>>, t: Cmd<W>)
    ensures ParseLine(ts) == Ok(t, []) <==> exists f :: Writes(f, ts, t)
  {
    hide ParseLine, Flat, Tree, Proper, InLimit;
    if ParseLine(ts) == Ok(t, []) {
      var f := FormFound(ts);
      assert Flat(f) + [] == Flat(f);
      assert Writes(f, ts, t);
    }
    if f :| Writes(f, ts, t) {
      FormBack(f, []);
      assert Flat(f) + [] == Flat(f);
    }
  }

  /** So the grammar is not ambiguous. */
  lemma Unambiguous<W>(f: Form<W>, g: Form<W>)
    requires Proper(f) && InLimit(f) && Proper(g) && InLimit(g) && Flat(f) == Flat(g)
    ensures Tree(f) == Tree(g)
  {
    hide ParseLine, Flat, Tree, Proper, InLimit;
    FormBack(f, []);
    FormBack(g, []);
  }

  // Every tree has a form: operands that bind less tightly than their place allows go in parentheses.

  function Base<W>(t: Cmd<W>): (b: Cmd<W>)
    ensures !b.Redirected? && (t.Redirected? ==> b < t) && (!t.Redirected? ==> b == t)
  {
    if t.Redirected? then Base(t.cmd) else t
  }

  function Around<W>(t: Cmd<W>): seq<Redir<W>> {
    if t.Redirected? then Around(t.cmd) + [t.redir] else []
  }

  function Items<W>(ws: seq<W>, rs: seq<Redir<W>>): (items: seq<Item<W>>)
    ensures |items| == |ws| + |rs|
    ensures forall k :: 0 <= k < |items| ==> items[k] == if k < |ws| then Arg(ws[k]) else Into(rs[k - |ws|])
  {
    seq(|ws| + |rs|, k requires 0 <= k < |ws| + |rs| => if k < |ws| then Arg(ws[k]) else Into(rs[k - |ws|]))
  }

  function InnerForm<W>(t: Cmd<W>): Form<W>
    requires !t.Redirected?
    decreases t, 0
  {
    match t
    case Exec(argv) => Simple(Items(argv, []))
    case Pipe(l, r) => Bar(CommandForm(l), PipelineForm(r))
    case List(l, r) => Semi(GroupForm(l), LineForm(r))
    case Back(c) => Amp(GroupForm(c))
  }

  function CommandForm<W>(t: Cmd<W>): Form<W>
    decreases t, 1
  {
    var b := Base(t);
    if b.Exec? then Simple(Items(b.argv, Around(t))) else Block(InnerForm(b), Around(t))
  }

  function PipelineForm<W>(t: Cmd<W>): Form<W>
    decreases t, 2
  {
    if t.Pipe? then InnerForm(t) else CommandForm(t)
  }

  function GroupForm<W>(t: Cmd<W>): Form<W>
    decreases t, 3
  {
    if t.Back? then InnerForm(t) else PipelineForm(t)
  }

  function LineForm<W>(t: Cmd<W>): Form<W>
    decreases t, 4
  {
    if t.List? then InnerForm(t) else GroupForm(t)
  }

  /** Within the argument limit. */
  predicate Fits<W>(t: Cmd<W>) {
    match t
    case Exec(argv) => |argv| < MAXARGS
    case Redirected(c, r) => Fits(c)
    case Pipe(l, r) => Fits(l) && Fits(r)
    case List(l, r) => Fits(l) && Fits(r)
    case Back(c) => Fits(c)
  }

  lemma {:induction false} WrapBase<W>(t: Cmd<W>)
    ensures Wrap(Base(t), Around(t)) == t && (Fits(t) <==> Fits(Base(t)))
  {
    if t.Redirected? {
      WrapBase(t.cmd);
      var rs := Around(t);
      assert rs[..|rs| - 1] == Around(t.cmd);
    }
  }

  lemma {:induction false} ItemsOf<W>(ws: seq<W>, rs: seq<Redir<W>>)
    ensures Args(Items(ws, rs)) == ws && Intos(Items(ws, rs)) == rs
    decreases |ws| + |rs|
  {
    var items := Items(ws, rs);
    if ws != [] {
      assert items[1..] == Items(ws[1..], rs);
      ItemsOf(ws[1..], rs);
    } else if rs != [] {
      assert items[1..] == Items(ws, rs[1..]);
      ItemsOf(ws, rs[1..]);
    }
  }

  /** The form of t at each level. */
  ghost predicate FormOf<W(!new)>(f: Form<W>, t: Cmd<W>) { Proper(f) && Tree(f) == t && (InLimit(f) <==> Fits(t)) }

  lemma {:induction false} InnerFormOf<W(!new)>(t: Cmd<W>)
    requires !t.Redirected?
    ensures FormOf(InnerForm(t), t)
    decreases t, 0
  {
    match t
    case Exec(argv) => ItemsOf(argv, []);
    case Pipe(l, r) => CommandFormOf(l); PipelineFormOf(r);
    case List(l, r) => GroupFormOf(l); LineFormOf(r);
    case Back(c) => GroupFormOf(c);
  }

  lemma {:induction false} CommandFormOf<W(!new)>(t: Cmd<W>)
    ensures FormOf(CommandForm(t), t) && IsCommand(CommandForm(t))
    decreases t, 1
  {
    var b := Base(t);
    WrapBase(t);
    if b.Exec? { ItemsOf(b.argv, Around(t)); } else { InnerFormOf(b); }
  }

  lemma {:induction false} PipelineFormOf<W(!new)>(t: Cmd<W>)
    ensures FormOf(PipelineForm(t), t) && IsPipeline(PipelineForm(t))
    decreases t, 2
  {
    if t.Pipe? { InnerFormOf(t); } else { CommandFormOf(t); }
  }

  lemma {:induction false} GroupFormOf<W(!new)>(t: Cmd<W>)
    ensures FormOf(GroupForm(t), t) && IsGroup(GroupForm(t))
    decreases t, 3
  {
    if t.Back? { InnerFormOf(t); } else { PipelineFormOf(t); }
  }

  lemma {:induction false} LineFormOf<W(!new)>(t: Cmd<W>)
    ensures FormOf(LineForm(t), t)
    decreases t, 4
  {
    if t.List? { InnerFormOf(t); } else { GroupFormOf(t); }
  }

  /** The printer. */
  function ToksLine<W>(t: Cmd<W>): seq<Tok<W>> { Flat(LineForm(t)) }

  /** Parsing the printed tokens of any tree within the limit gives the tree. */
  lemma ParsePrinted<W(!new)>(t: Cmd<W>)
    requires Fits(t)
    ensures ParseLine(ToksLine(t)) == Ok(t, [])
  {
    LineFormOf(t);
    FormBack(LineForm(t), []);
    assert ToksLine(t) + [] == ToksLine(t);
    hide ParseLine, Flat, Tree, Proper, InLimit, LineForm;
  }
}
