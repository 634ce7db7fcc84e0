/** The command language of user/sh.c as a grammar of its own: derivation trees, the tokens that each derives and the
    command that it means.  The parser accepts exactly the derivable token lists. */
module ShellDerivations {
  import opened ShellGrammar

  // ----- the grammar -----

  /** A word or a redirection of a simple command, in any order. */
  datatype Item = Arg(w: string) | Redirect(rd: Rd)

  /** cmd ::= item* | ( line ) redirection* */
  datatype Cmd = Simple(items: seq<Item>) | Block(body: Line, rds: seq<Rd>)

  /** chain ::= cmd | cmd | chain */
  datatype Chain = One(cmd: Cmd) | Piped(cmd: Cmd, more: Chain)

  /** line ::= chain &* | chain &* ; line */
  datatype Line = Last(chain: Chain, amps: nat) | Then(chain: Chain, amps: nat, more: Line)

  function OneItem(item: Item): seq<Token> {
    match item
    case Arg(w) => [Word(w)]
    case Redirect(rd) => [Arrow(rd.mode), Word(rd.file)]
  }

  function ItemTokens(items: seq<Item>): seq<Token> {
    if items == [] then [] else OneItem(items[0]) + ItemTokens(items[1..])
  }

  function Args(items: seq<Item>): seq<string> {
    if items == [] then [] else (if items[0].Arg? then [items[0].w] else []) + Args(items[1..])
  }

  function Redirections(items: seq<Item>): seq<Rd> {
    if items == [] then [] else (if items[0].Redirect? then [items[0].rd] else []) + Redirections(items[1..])
  }

  function Amps(n: nat): seq<Token> {
    if n == 0 then [] else [Sym('&')] + Amps(n - 1)
  }

  function CmdTokens(c: Cmd): seq<Token> {
    match c
    case Simple(items) => ItemTokens(items)
    case Block(body, rds) => [Sym('(')] + (LineTokens(body) + ([Sym(')')] + Arrows(rds)))
  }

  function ChainTokens(p: Chain): seq<Token> {
    match p
    case One(c) => CmdTokens(c)
    case Piped(c, more) => CmdTokens(c) + ([Sym('|')] + ChainTokens(more))
  }

  function LineTokens(l: Line): seq<Token> {
    match l
    case Last(p, n) => ChainTokens(p) + Amps(n)
    case Then(p, n, more) => ChainTokens(p) + (Amps(n) + ([Sym(';')] + LineTokens(more)))
  }

  /** n times in the background. */
  function Backed(t: Tree, n: nat): Tree {
    if n == 0 then t else Back(Backed(t, n - 1))
  }

  function CmdTree(c: Cmd): Tree {
    match c
    case Simple(items) => Wrap(Exec(Args(items)), Redirections(items))
    case Block(body, rds) => Wrap(LineTree(body), rds)
  }

  function ChainTree(p: Chain): Tree {
    match p
    case One(c) => CmdTree(c)
    case Piped(c, more) => Pipe(CmdTree(c), ChainTree(more))
  }

  function LineTree(l: Line): Tree {
    match l
    case Last(p, n) => Backed(ChainTree(p), n)
    case Then(p, n, more) => List(Backed(ChainTree(p), n), LineTree(more))
  }

  /** Every simple command has fewer than MAXARGS words. */
  predicate CmdFits(c: Cmd) {
    match c
    case Simple(items) => |Args(items)| < MAXARGS
    case Block(body, _) => LineFits(body)
  }

  predicate ChainFits(p: Chain) {
    match p
    case One(c) => CmdFits(c)
    case Piped(c, more) => CmdFits(c) && ChainFits(more)
  }

  predicate LineFits(l: Line) {
    match l
    case Last(p, _) => ChainFits(p)
    case Then(p, _, more) => ChainFits(p) && LineFits(more)
  }

  /** d derives the tokens ts, and its command is t. */
  ghost predicate Derives(d: Line, ts: seq<Token>, t: Tree) {
    LineFits(d) && LineTokens(d) == ts && LineTree(d) == t
  }

  // ----- what is derivable is accepted -----

  /** parseredirs, then the loop of parseexec. */
  function Gather(args: seq<string>, rds: seq<Rd>, ts: seq<Token>): Parsed {
    match ParseRedirs(rds, ts)
    case NoFile => Panic(MissingFile)
    case Rds(rds', rest) => ParseArgs(args, rds', rest)
  }

  lemma GatherEnd(args: seq<string>, rds: seq<Rd>, rest: seq<Token>)
    requires rest == [] || AtStop(rest)
    ensures Gather(args, rds, rest) == Ok(Wrap(Exec(args), rds), rest)
  {
  }

  lemma GatherRedirect(args: seq<string>, rds: seq<Rd>, rd: Rd, ts: seq<Token>)
    ensures Gather(args, rds, [Arrow(rd.mode), Word(rd.file)] + ts) == Gather(args, rds + [rd], ts)
  {
    hide ParseArgs;
    var all := [Arrow(rd.mode), Word(rd.file)] + ts;
    assert all[2..] == ts && Rd(ModeOf(all[0]), all[1].w) == rd;
  }

  lemma GatherArg(args: seq<string>, rds: seq<Rd>, w: string, ts: seq<Token>)
    requires |args| + 1 < MAXARGS
    ensures Gather(args, rds, [Word(w)] + ts) == Gather(args + [w], rds, ts)
  {
    hide Wrap;
    var all := [Word(w)] + ts;
    assert all[1..] == ts;
  }

  /** Reading a list of items from the front. */
  lemma FirstItem(item: Item, more: seq<Item>, rest: seq<Token>, args: seq<string>, rds: seq<Rd>)
    ensures ItemTokens([item] + more) + rest == OneItem(item) + (ItemTokens(more) + rest)
    ensures |Args([item] + more)| == |Args(more)| + if item.Arg? then 1 else 0
    ensures args + Args([item] + more) == (if item.Arg? then args + [item.w] else args) + Args(more)
    ensures rds + Redirections([item] + more) == (if item.Redirect? then rds + [item.rd] else rds) + Redirections(more)
  {
    var items := [item] + more;
    assert items[1..] == more;
  }

  lemma NoItem(rest: seq<Token>, args: seq<string>, rds: seq<Rd>)
    ensures ItemTokens([]) + rest == rest && args + Args([]) == args && rds + Redirections([]) == rds
  {
  }

  lemma {:induction false} GatherItems(args: seq<string>, rds: seq<Rd>, items: seq<Item>, rest: seq<Token>)
    requires |args| + |Args(items)| < MAXARGS && (rest == [] || AtStop(rest))
    ensures Gather(args, rds, ItemTokens(items) + rest)
         == Ok(Wrap(Exec(args + Args(items)), rds + Redirections(items)), rest)
    decreases |items|
  {
    hide Gather, Wrap, AtStop, Arrow, ItemTokens, Args, Redirections;
    if items == [] {
      NoItem(rest, args, rds);
      GatherEnd(args, rds, rest);
    } else {
      var item, more := items[0], items[1..];
      assert items == [item] + more;
      FirstItem(item, more, rest, args, rds);
      match item
      case Arg(w) =>
        GatherArg(args, rds, w, ItemTokens(more) + rest);
        GatherItems(args + [w], rds, more, rest);
      case Redirect(rd) =>
        GatherRedirect(args, rds, rd, ItemTokens(more) + rest);
        GatherItems(args, rds + [rd], more, rest);
    }
  }

  lemma ExecGathers(ts: seq<Token>)
    requires !At(ts, '(')
    ensures ParseExec(ts) == Gather([], [], ts)
  {
  }

  /** A simple command does not begin with a parenthesis. */
  lemma NoParen(items: seq<Item>, rest: seq<Token>)
    requires rest == [] || AtStop(rest)
    ensures !At(ItemTokens(items) + rest, '(')
  {
    if items == [] {
      assert ItemTokens(items) + rest == rest;
      assert rest == [] || rest[0] != Sym('(');
    } else {
      assert (ItemTokens(items) + rest)[0] == OneItem(items[0])[0];
    }
  }

  lemma BlockStep(ts: seq<Token>, t: Tree, rds: seq<Rd>, rest: seq<Token>)
    requires At(ts, '(') && ParseLine(ts[1..]) == Ok(t, [Sym(')')] + (Arrows(rds) + rest)) && !AtRedir(rest)
    ensures ParseExec(ts) == Ok(Wrap(t, rds), rest)
  {
    hide ParseLine, Wrap, Arrows;
    var tail := [Sym(')')] + (Arrows(rds) + rest);
    assert tail[1..] == Arrows(rds) + rest && [] + rds == rds;
    RedirsBack([], rds, rest);
  }

  lemma {:induction false} CmdAccepted(c: Cmd, rest: seq<Token>)
    requires CmdFits(c) && (rest == [] || AtStop(rest))
    ensures ParseExec(CmdTokens(c) + rest) == Ok(CmdTree(c), rest)
    decreases c
  {
    hide ParseExec, Gather, Wrap, Arrows, AtStop;
    match c
    case Simple(items) =>
      NoParen(items, rest);
      ExecGathers(ItemTokens(items) + rest);
      GatherItems([], [], items, rest);
      assert [] + Args(items) == Args(items) && [] + Redirections(items) == Redirections(items);
    case Block(body, rds) =>
      var tail := [Sym(')')] + (Arrows(rds) + rest);
      var ts := CmdTokens(c) + rest;
      assert ts == [Sym('(')] + (LineTokens(body) + tail);
      assert ts[1..] == LineTokens(body) + tail;
      LineAccepted(body, tail);
      StopsRedirs(rest);
      BlockStep(ts, LineTree(body), rds, rest);
  }

  lemma {:induction false} ChainAccepted(p: Chain, rest: seq<Token>)
    requires ChainFits(p) && (rest == [] || At(rest, ')') || At(rest, '&') || At(rest, ';'))
    ensures ParsePipe(ChainTokens(p) + rest) == Ok(ChainTree(p), rest)
    decreases p
  {
    hide ParsePipe, ParseExec, CmdTokens, CmdTree;
    match p
    case One(c) =>
      CmdAccepted(c, rest);
      PipeEnd(CmdTokens(c) + rest);
    case Piped(c, more) =>
      var tail := ChainTokens(more) + rest;
      assert ChainTokens(p) + rest == CmdTokens(c) + ([Sym('|')] + tail);
      CmdAccepted(c, [Sym('|')] + tail);
      ChainAccepted(more, rest);
      PipeStep(ChainTokens(p) + rest, CmdTree(c), tail);
  }

  lemma {:induction false} BacksAmps(t: Tree, m: nat, n: nat, rest: seq<Token>)
    requires !At(rest, '&')
    ensures Backs(Backed(t, m), Amps(n) + rest) == (Backed(t, m + n), rest)
    decreases n
  {
    if n == 0 {
      assert Amps(n) + rest == rest;
    } else {
      assert Amps(n) + rest == [Sym('&')] + (Amps(n - 1) + rest);
      assert (Amps(n) + rest)[1..] == Amps(n - 1) + rest;
      BacksAmps(t, m + 1, n - 1, rest);
    }
  }

  /** What follows a chain. */
  lemma AfterChain(n: nat, rest: seq<Token>)
    requires rest == [] || At(rest, ')') || At(rest, ';')
    ensures var all := Amps(n) + rest;
            all == [] || At(all, ')') || At(all, '&') || At(all, ';')
  {
    if n == 0 {
      assert Amps(n) + rest == rest;
    }
  }

  lemma LineEnd(ts: seq<Token>, t: Tree, n: nat, rest: seq<Token>)
    requires ParsePipe(ts) == Ok(t, Amps(n) + rest) && !At(rest, '&') && !At(rest, ';')
    ensures ParseLine(ts) == Ok(Backed(t, n), rest)
  {
    hide ParsePipe, Backs, Amps;
    BacksAmps(t, 0, n, rest);
  }

  lemma LineStep(ts: seq<Token>, t: Tree, n: nat, more: seq<Token>)
    requires ParsePipe(ts) == Ok(t, Amps(n) + ([Sym(';')] + more)) && ParseLine(more).Ok?
    requires |more| < |ts|
    ensures ParseLine(ts) == Ok(List(Backed(t, n), ParseLine(more).tree), ParseLine(more).rest)
  {
    hide ParsePipe, Backs, Amps;
    BacksAmps(t, 0, n, [Sym(';')] + more);
    assert ([Sym(';')] + more)[1..] == more;
  }

  lemma {:induction false} LineAccepted(l: Line, rest: seq<Token>)
    requires LineFits(l) && (rest == [] || At(rest, ')'))
    ensures ParseLine(LineTokens(l) + rest) == Ok(LineTree(l), rest)
    decreases l
  {
    hide ParseLine, ParsePipe, ChainTokens, ChainTree, Backed, Amps;
    var ts := LineTokens(l) + rest;
    match l
    case Last(p, n) =>
      assert ts == ChainTokens(p) + (Amps(n) + rest);
      AfterChain(n, rest);
      ChainAccepted(p, Amps(n) + rest);
      LineEnd(ts, ChainTree(p), n, rest);
    case Then(p, n, more) =>
      var tail := LineTokens(more) + rest;
      assert ts == ChainTokens(p) + (Amps(n) + ([Sym(';')] + tail));
      AfterChain(n, [Sym(';')] + tail);
      ChainAccepted(p, Amps(n) + ([Sym(';')] + tail));
      LineAccepted(more, rest);
      LineStep(ts, ChainTree(p), n, tail);
  }

  // ----- what is accepted is derivable -----

  lemma {:induction false} RedirsDerived(rds: seq<Rd>, ts: seq<Token>) returns (more: seq<Rd>)
    requires ParseRedirs(rds, ts).Rds?
    ensures ParseRedirs(rds, ts).rds == rds + more && ts == Arrows(more) + ParseRedirs(rds, ts).rest
    decreases |ts|
  {
    if !AtRedir(ts) {
      more := [];
      assert rds + [] == rds && Arrows([]) + ts == ts;
    } else {
      var rd := Rd(ModeOf(ts[0]), ts[1].w);
      var rest := RedirsDerived(rds + [rd], ts[2..]);
      more := [rd] + rest;
      RedirectFirst(rd, rest, ParseRedirs(rds + [rd], ts[2..]).rest, rds);
      RedirectTokens(ts);
    }
  }

  lemma RedirectFirst(rd: Rd, more: seq<Rd>, rest: seq<Token>, rds: seq<Rd>)
    ensures Arrows([rd] + more) + rest == [Arrow(rd.mode), Word(rd.file)] + (Arrows(more) + rest)
    ensures rds + ([rd] + more) == rds + [rd] + more
  {
    assert ([rd] + more)[1..] == more;
  }

  lemma RedirectTokens(ts: seq<Token>)
    requires AtRedir(ts) && |ts| >= 2 && ts[1].Word?
    ensures ts == [Arrow(ModeOf(ts[0])), Word(ts[1].w)] + ts[2..]
  {
  }

  lemma {:induction false} GatherDerived(args: seq<string>, rds: seq<Rd>, ts: seq<Token>) returns (items: seq<Item>)
    requires Gather(args, rds, ts).Ok? && |args| < MAXARGS
    ensures var r := Gather(args, rds, ts);
            && ts == ItemTokens(items) + r.rest && |args| + |Args(items)| < MAXARGS
            && r.tree == Wrap(Exec(args + Args(items)), rds + Redirections(items))
    decreases |ts|
  {
    hide Wrap, ItemTokens, Args, Redirections, ParseArgs, ParseRedirs;
    if AtRedir(ts) {
      GatherFile(args, rds, ts);
      var rd := Rd(ModeOf(ts[0]), ts[1].w);
      RedirectTokens(ts);
      GatherRedirect(args, rds, rd, ts[2..]);
      var more := GatherDerived(args, rds + [rd], ts[2..]);
      items := [Redirect(rd)] + more;
      FirstItem(Redirect(rd), more, Gather(args, rds, ts).rest, args, rds);
    } else if AtStop(ts) || ts == [] {
      items := [];
      GatherEnd(args, rds, ts);
      NoItem(ts, args, rds);
      NoArgs();
    } else {
      GatherWord(args, rds, ts);
      assert ts == [ts[0]] + ts[1..];
      GatherArg(args, rds, ts[0].w, ts[1..]);
      var more := GatherDerived(args + [ts[0].w], rds, ts[1..]);
      items := [Arg(ts[0].w)] + more;
      FirstItem(Arg(ts[0].w), more, Gather(args, rds, ts).rest, args, rds);
    }
  }

  lemma NoArgs()
    ensures Args([]) == []
  {
  }

  lemma GatherFile(args: seq<string>, rds: seq<Rd>, ts: seq<Token>)
    requires Gather(args, rds, ts).Ok? && AtRedir(ts)
    ensures |ts| >= 2 && ts[1].Word?
  {
  }

  lemma GatherWord(args: seq<string>, rds: seq<Rd>, ts: seq<Token>)
    requires Gather(args, rds, ts).Ok? && !AtRedir(ts) && !AtStop(ts) && ts != []
    ensures ts[0].Word? && |args| + 1 < MAXARGS
  {
  }

  lemma {:induction false} CmdDerived(ts: seq<Token>) returns (c: Cmd)
    requires ParseExec(ts).Ok?
    ensures CmdFits(c) && ts == CmdTokens(c) + ParseExec(ts).rest && ParseExec(ts).tree == CmdTree(c)
    decreases |ts|, 1
  {
    hide Gather, ParseRedirs, ParseLine, Wrap, Arrows;
    if At(ts, '(') {
      var inner := ParseLine(ts[1..]);
      var body := LineDerived(ts[1..]);
      var rds := RedirsDerived([], inner.rest[1..]);
      c := Block(body, rds);
      BlockTokens(ts, body, inner.rest, rds, ParseExec(ts).rest);
      assert [] + rds == rds;
    } else {
      ExecGathers(ts);
      var items := GatherDerived([], [], ts);
      c := Simple(items);
      assert [] + Args(items) == Args(items) && [] + Redirections(items) == Redirections(items);
    }
  }

  lemma BlockTokens(ts: seq<Token>, body: Line, mid: seq<Token>, rds: seq<Rd>, rest: seq<Token>)
    requires At(ts, '(') && ts[1..] == LineTokens(body) + mid && At(mid, ')') && mid[1..] == Arrows(rds) + rest
    ensures ts == CmdTokens(Block(body, rds)) + rest
  {
    hide LineTokens, Arrows;
    assert ts == [Sym('(')] + ts[1..] && mid == [Sym(')')] + mid[1..];
  }

  lemma {:induction false} ChainDerived(ts: seq<Token>) returns (p: Chain)
    requires ParsePipe(ts).Ok?
    ensures ChainFits(p) && ts == ChainTokens(p) + ParsePipe(ts).rest && ParsePipe(ts).tree == ChainTree(p)
    decreases |ts|, 2
  {
    hide ParseExec, CmdTokens, CmdTree, CmdFits;
    var c := CmdDerived(ts);
    var rest := ParseExec(ts).rest;
    if At(rest, '|') {
      var more := ChainDerived(rest[1..]);
      p := Piped(c, more);
      assert rest == [Sym('|')] + rest[1..];
    } else {
      p := One(c);
    }
  }

  lemma {:induction false} BacksDerived(t: Tree, m: nat, ts: seq<Token>) returns (n: nat)
    ensures Backs(Backed(t, m), ts).0 == Backed(t, m + n) && ts == Amps(n) + Backs(Backed(t, m), ts).1
    decreases |ts|
  {
    if At(ts, '&') {
      var k := BacksDerived(t, m + 1, ts[1..]);
      n := k + 1;
      assert ts == [Sym('&')] + ts[1..];
    } else {
      n := 0;
    }
  }

  lemma {:induction false} LineDerived(ts: seq<Token>) returns (l: Line)
    requires ParseLine(ts).Ok?
    ensures LineFits(l) && ts == LineTokens(l) + ParseLine(ts).rest && ParseLine(ts).tree == LineTree(l)
    decreases |ts|, 3
  {
    hide ParsePipe, ChainTokens, ChainTree, ChainFits, Backs, Amps;
    var p := ChainDerived(ts);
    var mid := ParsePipe(ts).rest;
    var n := BacksDerived(ParsePipe(ts).tree, 0, mid);
    var rest := Backs(ParsePipe(ts).tree, mid).1;
    if At(rest, ';') {
      var more := LineDerived(rest[1..]);
      l := Then(p, n, more);
      assert rest == [Sym(';')] + rest[1..];
    } else {
      l := Last(p, n);
    }
  }

  /** The parser accepts exactly the derivable token lists, and returns the command that the derivation means. */
  lemma AcceptsExactly(ts: seq<Token>, t: Tree)
    ensures ParseCmd(ts) == Ok(t, []) <==> exists d :: Derives(d, ts, t)
  {
    hide ParseLine, LineFits, LineTokens, LineTree;
    if ParseCmd(ts) == Ok(t, []) {
      var d := LineDerived(ts);
      assert LineTokens(d) + [] == LineTokens(d);
      assert Derives(d, ts, t);
    }
    if d :| Derives(d, ts, t) {
      LineAccepted(d, []);
      assert LineTokens(d) + [] == LineTokens(d);
    }
  }

  /** It panics exactly if there is no derivation, so leftovers and unbalanced parentheses never pass. */
  lemma PanicsExactly(ts: seq<Token>)
    ensures ParseCmd(ts).Panic? <==> forall d, t :: !Derives(d, ts, t)
  {
    hide ParseLine, Derives;
    if ParseCmd(ts).Ok? {
      AcceptsExactly(ts, ParseCmd(ts).tree);
    }
    forall d, t | Derives(d, ts, t) ensures ParseCmd(ts).Ok? {
      AcceptsExactly(ts, t);
    }
  }

  /** No token list has two readings. */
  lemma Unambiguous(ts: seq<Token>, d: Line, d': Line, t: Tree, t': Tree)
    requires Derives(d, ts, t) && Derives(d', ts, t')
    ensures t == t'
  {
    hide Derives, ParseCmd;
    AcceptsExactly(ts, t);
    AcceptsExactly(ts, t');
  }
}
