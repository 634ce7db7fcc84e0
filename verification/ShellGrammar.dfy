/** The command language of user/sh.c on tokens: the parser's grammar, a printer, and the round trip between them. */
module ShellGrammar {
  import opened Blocks

  const MAXARGS: nat := 10

  /** What gettoken delivers: one of the characters < | > & ; ( ), a >>, or a word. */
  datatype Token = Sym(c: char) | DoubleRight | Word(w: string)

  /** Redirection of fd 0 from a file (<), or of fd 1 to one, truncated (>) or not (>>). */
  datatype Mode = In | Out | Add

  datatype Tree =
    | Exec(args: seq<string>)
    | Redir(cmd: Tree, mode: Mode, file: string)
    | Pipe(left: Tree, right: Tree)
    | List(left: Tree, right: Tree)
    | Back(cmd: Tree)

  datatype Rd = Rd(mode: Mode, file: string)

  /** Why the parser panics. */
  datatype Error = MissingFile | Syntax | MissingParen | TooManyArgs | Leftovers

  datatype Parsed = Ok(tree: Tree, rest: seq<Token>) | Panic(why: Error)

  datatype Redirs = Rds(rds: seq<Rd>, rest: seq<Token>) | NoFile

  predicate At(ts: seq<Token>, c: char) { ts != [] && ts[0] == Sym(c) }

  predicate AtRedir(ts: seq<Token>) { At(ts, '<') || At(ts, '>') || (ts != [] && ts[0].DoubleRight?) }

  /** peek(ps, es, "|)&;") */
  predicate AtStop(ts: seq<Token>) { At(ts, '|') || At(ts, ')') || At(ts, '&') || At(ts, ';') }

  function ModeOf(t: Token): Mode { if t == Sym('<') then In else if t == Sym('>') then Out else Add }

  /** Each redirection wraps what came before. */
  function Wrap(t: Tree, rds: seq<Rd>): Tree {
    if rds == [] then t else var last := rds[|rds| - 1]; Redir(Wrap(t, rds[..|rds| - 1]), last.mode, last.file)
  }

  // ----- the grammar, as the parse functions implement it -----

  function ParseRedirs(rds: seq<Rd>, ts: seq<Token>): (r: Redirs)
    ensures r.Rds? ==> |r.rest| <= |ts|
    decreases |ts|
  {
    if !AtRedir(ts) then Rds(rds, ts)
    else if |ts| < 2 || !ts[1].Word? then NoFile
    else ParseRedirs(rds + [Rd(ModeOf(ts[0]), ts[1].w)], ts[2..])
  }

  /** The loop of parseexec. */
  function ParseArgs(args: seq<string>, rds: seq<Rd>, ts: seq<Token>): (r: Parsed)
    ensures r.Ok? ==> |r.rest| <= |ts|
    decreases |ts|
  {
    if AtStop(ts) || ts == [] then Ok(Wrap(Exec(args), rds), ts)
    else if !ts[0].Word? then Panic(Syntax)
    else if |args| + 1 >= MAXARGS then Panic(TooManyArgs)
    else match ParseRedirs(rds, ts[1..])
         case NoFile => Panic(MissingFile)
         case Rds(rds', rest) => ParseArgs(args + [ts[0].w], rds', rest)
  }

  function ParseExec(ts: seq<Token>): (r: Parsed)
    ensures r.Ok? ==> |r.rest| <= |ts|
    decreases |ts|, 1
  {
    if At(ts, '(') then ParseBlock(ts)
    else match ParseRedirs([], ts)
         case NoFile => Panic(MissingFile)
         case Rds(rds, rest) => ParseArgs([], rds, rest)
  }

  function ParseBlock(ts: seq<Token>): (r: Parsed)
    requires At(ts, '(')
    ensures r.Ok? ==> |r.rest| <= |ts|
    decreases |ts|, 0
  {
    match ParseLine(ts[1..])
    case Panic(e) => Panic(e)
    case Ok(t, rest) =>
      if !At(rest, ')') then Panic(MissingParen)
      else match ParseRedirs([], rest[1..])
           case NoFile => Panic(MissingFile)
           case Rds(rds, rest') => Ok(Wrap(t, rds), rest')
  }

  function ParsePipe(ts: seq<Token>): (r: Parsed)
    ensures r.Ok? ==> |r.rest| <= |ts|
    decreases |ts|, 2
  {
    match ParseExec(ts)
    case Panic(e) => Panic(e)
    case Ok(t, rest) =>
      if !At(rest, '|') then Ok(t, rest)
      else match ParsePipe(rest[1..])
           case Panic(e) => Panic(e)
           case Ok(u, rest') => Ok(Pipe(t, u), rest')
  }

  /** The loop of parseline. */
  function Backs(t: Tree, ts: seq<Token>): (r: (Tree, seq<Token>))
    ensures |r.1| <= |ts|
    decreases |ts|
  {
    if At(ts, '&') then Backs(Back(t), ts[1..]) else (t, ts)
  }

  function ParseLine(ts: seq<Token>): (r: Parsed)
    ensures r.Ok? ==> |r.rest| <= |ts|
    decreases |ts|, 3
  {
    match ParsePipe(ts)
    case Panic(e) => Panic(e)
    case Ok(t, rest) =>
      var (t', rest') := Backs(t, rest);
      if !At(rest', ';') then Ok(t', rest')
      else match ParseLine(rest'[1..])
           case Panic(e) => Panic(e)
           case Ok(u, rest'') => Ok(List(t', u), rest'')
  }

  function ParseCmd(ts: seq<Token>): Parsed {
    match ParseLine(ts)
    case Panic(e) => Panic(e)
    case Ok(t, rest) => if rest != [] then Panic(Leftovers) else Ok(t, rest)
  }

  // ----- the printer -----

  /** A command that the grammar can express within the argument limit: that is every one. */
  predicate Within(t: Tree) {
    match t
    case Exec(args) => |args| < MAXARGS
    case Redir(c, _, _) => Within(c)
    case Pipe(l, r) => Within(l) && Within(r)
    case List(l, r) => Within(l) && Within(r)
    case Back(c) => Within(c)
  }

  function Words(args: seq<string>): seq<Token> {
    if args == [] then [] else [Word(args[0])] + Words(args[1..])
  }

  function Arrow(m: Mode): Token {
    match m case In => Sym('<') case Out => Sym('>') case Add => DoubleRight
  }

  /** The lowest level of the grammar that reads a command bare: 0 parseexec, 1 parsepipe, 2 the loop of parseline,
      3 parseline. */
  function Level(t: Tree): nat {
    match t case Exec(_) => 0 case Redir(_, _, _) => 0 case Pipe(_, _) => 1 case Back(_) => 2 case List(_, _) => 3
  }

  /** A command as it is written where the given level is read: in parentheses if it needs a higher one. */
  function Print(t: Tree, level: nat): seq<Token>
    decreases t, 1
  {
    if Level(t) > level then [Sym('(')] + Bare(t) + [Sym(')')] else Bare(t)
  }

  function Bare(t: Tree): seq<Token>
    decreases t, 0
  {
    match t
    case Exec(args) => Words(args)
    case Redir(c, m, f) => Print(c, 0) + [Arrow(m), Word(f)]
    case Pipe(l, r) => Print(l, 0) + [Sym('|')] + Print(r, 1)
    case Back(c) => Print(c, 2) + [Sym('&')]
    case List(l, r) => Print(l, 2) + [Sym(';')] + Print(r, 3)
  }

  function Arrows(rds: seq<Rd>): seq<Token> {
    if rds == [] then [] else [Arrow(rds[0].mode), Word(rds[0].file)] + Arrows(rds[1..])
  }

  // ----- the round trip -----

  lemma {:induction false} RedirsBack(pre: seq<Rd>, rds: seq<Rd>, rest: seq<Token>)
    requires !AtRedir(rest)
    ensures ParseRedirs(pre, Arrows(rds) + rest) == Rds(pre + rds, rest)
    decreases |rds|
  {
    if rds == [] {
      assert Arrows(rds) + rest == rest && pre + rds == pre;
    } else {
      var ts := Arrows(rds) + rest;
      assert ts[2..] == Arrows(rds[1..]) + rest;
      RedirsBack(pre + [rds[0]], rds[1..], rest);
      assert pre + rds == pre + [rds[0]] + rds[1..];
      assert Rd(ModeOf(ts[0]), ts[1].w) == rds[0];
    }
  }

  lemma WordsHead(args: seq<string>, more: seq<Token>)
    requires args != []
    ensures Words(args) + more == [Word(args[0])] + (Words(args[1..]) + more)
  {
  }

  /** One round of the loop of parseexec. */
  lemma ArgStep(args: seq<string>, w: string, ts: seq<Token>)
    requires |args| + 1 < MAXARGS && ParseRedirs([], ts).Rds?
    ensures ParseArgs(args, [], [Word(w)] + ts) == ParseArgs(args + [w], ParseRedirs([], ts).rds, ParseRedirs([], ts).rest)
  {
    hide ParseRedirs, Wrap;
    var all := [Word(w)] + ts;
    assert all[1..] == ts && all[0] == Word(w);
  }

  lemma {:induction false} ArgsBack(pre: seq<string>, args: seq<string>, rds: seq<Rd>, rest: seq<Token>)
    requires |pre| + |args| < MAXARGS && args != [] && (rest == [] || AtStop(rest))
    ensures ParseArgs(pre, [], Words(args) + (Arrows(rds) + rest)) == Ok(Wrap(Exec(pre + args), rds), rest)
    decreases |args|
  {
    hide ParseArgs, ParseRedirs, Wrap, Arrows, Words, AtStop;
    var more := Arrows(rds) + rest;
    WordsHead(args, more);
    var ts := Words(args[1..]) + more;
    StopsRedirs(rest);
    if |args| == 1 {
      NoWords(args[1..]);
      assert ts == more && [] + rds == rds;
      RedirsBack([], rds, rest);
      ArgStep(pre, args[0], ts);
      ArgsEnd(pre + [args[0]], rds, rest);
      assert pre + args == pre + [args[0]];
    } else {
      WordsHead(args[1..], more);
      NoRedirs(args[1], Words(args[1..][1..]) + more);
      ArgStep(pre, args[0], ts);
      ArgsBack(pre + [args[0]], args[1..], rds, rest);
      assert pre + args == pre + [args[0]] + args[1..];
    }
  }

  lemma NoWords(args: seq<string>)
    requires args == []
    ensures Words(args) == []
  {
  }

  lemma StopsRedirs(rest: seq<Token>)
    requires rest == [] || AtStop(rest)
    ensures !AtRedir(rest)
  {
  }

  lemma ArgsEnd(args: seq<string>, rds: seq<Rd>, rest: seq<Token>)
    requires rest == [] || AtStop(rest)
    ensures ParseArgs(args, rds, rest) == Ok(Wrap(Exec(args), rds), rest)
  {
  }

  lemma NoRedirs(w: string, ts: seq<Token>)
    ensures ParseRedirs([], [Word(w)] + ts) == Rds([], [Word(w)] + ts)
  {
  }

  lemma {:induction false} WrapFirst(t: Tree, m: Mode, f: string, rds: seq<Rd>)
    ensures Wrap(t, [Rd(m, f)] + rds) == Wrap(Redir(t, m, f), rds)
    decreases |rds|
  {
    var all := [Rd(m, f)] + rds;
    if rds == [] {
      assert all[..0] == [];
    } else {
      WrapFirst(t, m, f, rds[..|rds| - 1]);
      assert all[..|all| - 1] == [Rd(m, f)] + rds[..|rds| - 1];
    }
  }

  /** The levels call each other round a cycle, but each command is taken apart somewhere on it. */
  function Rank(t: Tree, level: nat): nat {
    match t case List(_, _) => (level + 1) % 4 case Back(_) => (level + 2) % 4 case Pipe(_, _) => (level + 3) % 4 case _ => level
  }

  lemma {:induction false} ExecBack(t: Tree, rds: seq<Rd>, rest: seq<Token>)
    requires Within(t) && (rest == [] || AtStop(rest))
    ensures ParseExec(Print(t, 0) + (Arrows(rds) + rest)) == Ok(Wrap(t, rds), rest)
    decreases t, Rank(t, 0)
  {
    hide ParseExec, ParseRedirs, Wrap, Words;
    var more := Arrows(rds) + rest;
    match t
    case Exec(args) => SimpleBack(args, rds, rest);
    case Redir(c, m, f) =>
      var all := [Rd(m, f)] + rds;
      assert all[1..] == rds;
      assert Print(t, 0) + more == Print(c, 0) + (Arrows(all) + rest);
      ExecBack(c, all, rest);
      WrapFirst(c, m, f, rds);
    case _ =>
      ParenBack(t, rds, rest);
  }

  lemma SimpleBack(args: seq<string>, rds: seq<Rd>, rest: seq<Token>)
    requires |args| < MAXARGS && (rest == [] || AtStop(rest))
    ensures ParseExec(Words(args) + (Arrows(rds) + rest)) == Ok(Wrap(Exec(args), rds), rest)
  {
    hide ParseArgs, ParseRedirs, Wrap, ParseBlock;
    var more := Arrows(rds) + rest;
    var ts := Words(args) + more;
    if args == [] {
      assert ts == more && [] + rds == rds;
      RedirsBack([], rds, rest);
      ArgsEnd(args, rds, rest);
    } else {
      WordsHead(args, more);
      NoRedirs(args[0], Words(args[1..]) + more);
      ArgsBack([], args, rds, rest);
      assert [] + args == args;
    }
  }

  lemma {:induction false} ParenBack(t: Tree, rds: seq<Rd>, rest: seq<Token>)
    requires Within(t) && (rest == [] || AtStop(rest)) && Level(t) > 0
    ensures ParseExec(Print(t, 0) + (Arrows(rds) + rest)) == Ok(Wrap(t, rds), rest)
    decreases t, Rank(t, 0), 0
  {
    hide ParseLine, ParseRedirs, ParseArgs, Wrap, Bare, Arrows;
    var more := Arrows(rds) + rest;
    var ts := Print(t, 0) + more;
    var tail := [Sym(')')] + more;
    assert ts[1..] == Print(t, 3) + tail && ts[0] == Sym('(');
    LineBack(t, tail);
    RedirsBack([], rds, rest);
    assert [] + rds == rds && tail[1..] == more;
  }

  lemma {:induction false} PipeBack(t: Tree, rest: seq<Token>)
    requires Within(t) && (rest == [] || At(rest, ')') || At(rest, '&') || At(rest, ';'))
    ensures ParsePipe(Print(t, 1) + rest) == Ok(t, rest)
    decreases t, Rank(t, 1)
  {
    hide ParseExec, ParsePipe, Print, Bare;
    if t.Pipe? {
      var more := Print(t.right, 1) + rest;
      var tail := [Sym('|')] + more;
      assert Arrows([]) + tail == tail;
      PrintPipe(t, rest);
      ExecBack(t.left, [], tail);
      PipeBack(t.right, rest);
      PipeStep(Print(t, 1) + rest, t.left, more);
    } else {
      assert Arrows([]) + rest == rest;
      PrintNoPipe(t);
      ExecBack(t, [], rest);
      PipeEnd(Print(t, 1) + rest);
    }
  }

  lemma PrintPipe(t: Tree, rest: seq<Token>)
    requires t.Pipe?
    ensures Print(t, 1) + rest == Print(t.left, 0) + ([Sym('|')] + (Print(t.right, 1) + rest))
  {
  }

  lemma PrintNoPipe(t: Tree)
    requires !t.Pipe?
    ensures Print(t, 1) == Print(t, 0)
  {
  }

  lemma PipeStep(ts: seq<Token>, t: Tree, more: seq<Token>)
    requires ParseExec(ts) == Ok(t, [Sym('|')] + more) && ParsePipe(more).Ok?
    ensures ParsePipe(ts) == Ok(Pipe(t, ParsePipe(more).tree), ParsePipe(more).rest)
  {
    hide ParseExec;
    assert ([Sym('|')] + more)[1..] == more;
  }

  lemma PipeEnd(ts: seq<Token>)
    requires ParseExec(ts).Ok? && !At(ParseExec(ts).rest, '|')
    ensures ParsePipe(ts) == ParseExec(ts)
  {
    hide ParseExec;
  }

  /** After parsepipe, the loop is where it would be had it just read t. */
  lemma {:induction false} BackBack(t: Tree, rest: seq<Token>)
    requires Within(t) && (rest == [] || At(rest, ')') || At(rest, '&') || At(rest, ';'))
    ensures var r := ParsePipe(Print(t, 2) + rest);
            r.Ok? && Backs(r.tree, r.rest) == Backs(t, rest)
    decreases t, Rank(t, 2)
  {
    if t.Back? {
      assert Print(t, 2) + rest == Print(t.cmd, 2) + ([Sym('&')] + rest);
      BackBack(t.cmd, [Sym('&')] + rest);
      assert ([Sym('&')] + rest)[1..] == rest;
    } else {
      assert Print(t, 2) == Print(t, 1);
      PipeBack(t, rest);
    }
  }

  lemma {:induction false} LineBack(t: Tree, rest: seq<Token>)
    requires Within(t) && (rest == [] || At(rest, ')'))
    ensures ParseLine(Print(t, 3) + rest) == Ok(t, rest)
    decreases t, Rank(t, 3)
  {
    if t.List? {
      var tail := [Sym(';')] + (Print(t.right, 3) + rest);
      assert Print(t, 3) + rest == Print(t.left, 2) + tail;
      BackBack(t.left, tail);
      LineBack(t.right, rest);
      assert tail[1..] == Print(t.right, 3) + rest;
    } else {
      assert Print(t, 3) == Print(t, 2);
      BackBack(t, rest);
    }
  }

  /** Reading what was printed gives the command back, with nothing left over, for every command whose argument
      lists are within the limit. */
  lemma RoundTrip(t: Tree)
    requires Within(t)
    ensures ParseCmd(Print(t, 3)) == Ok(t, [])
  {
    LineBack(t, []);
    assert Print(t, 3) + [] == Print(t, 3);
  }

  // ----- what the parser can return -----

  lemma {:induction false} WrapWithin(t: Tree, rds: seq<Rd>)
    requires Within(t)
    ensures Within(Wrap(t, rds))
    decreases |rds|
  {
    if rds != [] {
      WrapWithin(t, rds[..|rds| - 1]);
    }
  }

  lemma {:induction false} ArgsWithin(args: seq<string>, rds: seq<Rd>, ts: seq<Token>)
    requires |args| < MAXARGS
    ensures ParseArgs(args, rds, ts).Ok? ==> Within(ParseArgs(args, rds, ts).tree)
    decreases |ts|
  {
    hide ParseRedirs, Wrap;
    if AtStop(ts) || ts == [] {
      WrapWithin(Exec(args), rds);
    } else if ts[0].Word? && |args| + 1 < MAXARGS && ParseRedirs(rds, ts[1..]).Rds? {
      ArgsWithin(args + [ts[0].w], ParseRedirs(rds, ts[1..]).rds, ParseRedirs(rds, ts[1..]).rest);
    }
  }

  lemma {:induction false} BacksWithin(t: Tree, ts: seq<Token>)
    requires Within(t)
    ensures Within(Backs(t, ts).0)
    decreases |ts|
  {
    if At(ts, '&') {
      BacksWithin(Back(t), ts[1..]);
    }
  }

  lemma {:induction false} ExecWithin(ts: seq<Token>)
    ensures ParseExec(ts).Ok? ==> Within(ParseExec(ts).tree)
    decreases |ts|, 1
  {
    hide ParseRedirs, ParseArgs, ParseBlock;
    if At(ts, '(') {
      BlockWithin(ts);
    } else if ParseRedirs([], ts).Rds? {
      ArgsWithin([], ParseRedirs([], ts).rds, ParseRedirs([], ts).rest);
    }
  }

  lemma {:induction false} BlockWithin(ts: seq<Token>)
    requires At(ts, '(')
    ensures ParseBlock(ts).Ok? ==> Within(ParseBlock(ts).tree)
    decreases |ts|, 0
  {
    hide ParseRedirs, ParseLine, Wrap;
    LineWithin(ts[1..]);
    if ParseBlock(ts).Ok? {
      WrapWithin(ParseLine(ts[1..]).tree, ParseRedirs([], ParseLine(ts[1..]).rest[1..]).rds);
    }
  }

  lemma {:induction false} PipeWithin(ts: seq<Token>)
    ensures ParsePipe(ts).Ok? ==> Within(ParsePipe(ts).tree)
    decreases |ts|, 2
  {
    hide ParseExec;
    ExecWithin(ts);
    if ParseExec(ts).Ok? && At(ParseExec(ts).rest, '|') {
      PipeWithin(ParseExec(ts).rest[1..]);
    }
  }

  lemma {:induction false} LineWithin(ts: seq<Token>)
    ensures ParseLine(ts).Ok? ==> Within(ParseLine(ts).tree)
    decreases |ts|, 3
  {
    hide ParsePipe, Backs;
    PipeWithin(ts);
    if ParsePipe(ts).Ok? {
      BacksWithin(ParsePipe(ts).tree, ParsePipe(ts).rest);
      var rest := Backs(ParsePipe(ts).tree, ParsePipe(ts).rest).1;
      if At(rest, ';') {
        LineWithin(rest[1..]);
      }
    }
  }

  /** The commands that the parser returns are exactly those within the limit; whatever was typed, printing the
      command and reading it again gives the same command. */
  lemma Image(t: Tree)
    ensures Within(t) <==> exists ts :: ParseCmd(ts) == Ok(t, [])
  {
    if Within(t) {
      RoundTrip(t);
    }
    if ts :| ParseCmd(ts) == Ok(t, []) {
      LineWithin(ts);
    }
  }
}
