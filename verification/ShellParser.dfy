/** The parser of user/sh.c on characters: it computes the grammar of ShellGrammar on the tokens of its input, whatever
    the white space between them, and leaves each string terminated where its token ends. */
module ShellParser {
  import opened ShellGrammar

  const NUL: char := '\0'

  predicate IsSpace(c: char) { c in " \t\r\n\U{0B}" }

  predicate IsSymbol(c: char) { c in "<|>&;()" }

  predicate IsWord(c: char) { !IsSpace(c) && !IsSymbol(c) && c != NUL }

  predicate NulFree(s: string) { forall k :: 0 <= k < |s| ==> s[k] != NUL }

  // ----- the tokens of a string -----

  function Skip(s: string): (j: nat)
    ensures j <= |s| && (forall k :: 0 <= k < j ==> IsSpace(s[k])) && (j < |s| ==> !IsSpace(s[j]))
  {
    if s != "" && IsSpace(s[0]) then 1 + Skip(s[1..]) else 0
  }

  function WordEnd(s: string): (j: nat)
    ensures j <= |s| && (forall k :: 0 <= k < j ==> IsWord(s[k])) && (j < |s| ==> !IsWord(s[j]))
  {
    if s != "" && IsWord(s[0]) then 1 + WordEnd(s[1..]) else 0
  }

  /** The length of the token that s begins with. */
  function Length(s: string): (n: nat)
    requires s != "" && s[0] != NUL && !IsSpace(s[0])
    ensures 0 < n <= |s|
  {
    if s[0] == '>' && |s| > 1 && s[1] == '>' then 2 else if IsSymbol(s[0]) then 1 else WordEnd(s)
  }

  function First(s: string): Token
    requires s != "" && s[0] != NUL && !IsSpace(s[0])
  {
    if s[0] == '>' && |s| > 1 && s[1] == '>' then DoubleRight
    else if IsSymbol(s[0]) then Sym(s[0])
    else Word(s[..WordEnd(s)])
  }

  function Toks(s: string): seq<Token>
    requires NulFree(s)
    decreases |s|
  {
    var t := s[Skip(s)..];
    if t == "" then [] else [First(t)] + Toks(t[Length(t)..])
  }

  // ----- a printed command has the tokens it was printed from -----

  function Spelling(t: Token): string {
    match t case Sym(c) => [c] case DoubleRight => ">>" case Word(w) => w
  }

  /** A token that can be spelled. */
  predicate Proper(t: Token) {
    match t
    case Sym(c) => IsSymbol(c)
    case DoubleRight => true
    case Word(w) => w != "" && forall k :: 0 <= k < |w| ==> IsWord(w[k])
  }

  predicate Blank(s: string) { s != "" && forall k :: 0 <= k < |s| ==> IsSpace(s[k]) }

  /** Tokens with white space of any kind behind each. */
  function Render(ts: seq<Token>, gaps: seq<string>): string
    requires |gaps| == |ts|
  {
    if ts == [] then "" else Spelling(ts[0]) + (gaps[0] + Render(ts[1..], gaps[1..]))
  }

  predicate Spaces(s: string) { forall k :: 0 <= k < |s| ==> IsSpace(s[k]) }

  lemma SkipBlank(gap: string, s: string)
    requires Spaces(gap) && NulFree(s)
    ensures NulFree(gap + s) && Toks(gap + s) == Toks(s)
  {
    hide Skip, First, Length;
    var t := gap + s;
    forall k | 0 <= k < |gap| + Skip(s) ensures IsSpace(t[k]) {
      assert t[k] == if k < |gap| then gap[k] else s[k - |gap|];
    }
    SkipIs(t, |gap| + Skip(s));
    assert t[Skip(t)..] == s[Skip(s)..];
  }

  lemma SkipIs(s: string, j: nat)
    requires j <= |s| && (forall k :: 0 <= k < j ==> IsSpace(s[k])) && (j < |s| ==> !IsSpace(s[j]))
    ensures Skip(s) == j
  {
    hide Skip, IsSpace;
  }

  /** Token t does not go on with s. */
  predicate Complete(t: Token, s: string) {
    s != "" ==> (t.Word? ==> !IsWord(s[0])) && (t == Sym('>') ==> s[0] != '>')
  }

  lemma OneToken(t: Token, s: string)
    requires Proper(t) && NulFree(s) && Complete(t, s)
    ensures NulFree(Spelling(t) + s) && Toks(Spelling(t) + s) == [t] + Toks(s)
  {
    hide WordEnd, Skip;
    var w := Spelling(t);
    var all := w + s;
    SkipIs(all, 0);
    assert all[0] == w[0] && Skip(all) == 0 && all[0..] == all;
    assert all[|w|..] == s && all[..|w|] == w && (s != "" ==> all[|w|] == s[0]);
    match t
    case Word(_) => WordIs(all, |w|);
    case _ =>
  }

  lemma WordIs(s: string, j: nat)
    requires j <= |s| && (forall k :: 0 <= k < j ==> IsWord(s[k])) && (j < |s| ==> !IsWord(s[j]))
    ensures WordEnd(s) == j
  {
    hide WordEnd, IsWord;
  }

  lemma RenderOne(t: Token, gap: string, rest: string)
    requires Proper(t) && Blank(gap) && NulFree(rest)
    ensures NulFree(Spelling(t) + (gap + rest)) && Toks(Spelling(t) + (gap + rest)) == [t] + Toks(rest)
  {
    hide Toks, Spelling, Proper;
    SkipBlank(gap, rest);
    OneToken(t, gap + rest);
  }

  lemma RenderNone()
    ensures NulFree("") && Toks("") == []
  {
  }

  /** Printing tokens and reading them again changes nothing, whatever the white space. */
  lemma {:induction false} RenderToks(ts: seq<Token>, gaps: seq<string>)
    requires |gaps| == |ts| && AllProper(ts) && forall k :: 0 <= k < |gaps| ==> Blank(gaps[k])
    ensures NulFree(Render(ts, gaps)) && Toks(Render(ts, gaps)) == ts
  {
    hide Toks, NulFree, Proper, Blank, Spelling;
    if ts == [] {
      RenderNone();
    } else {
      RenderToks(ts[1..], gaps[1..]);
      RenderOne(ts[0], gaps[0], Render(ts[1..], gaps[1..]));
    }
  }

  // ----- exactly which strings have which tokens -----

  /** Tokens with white space, possibly none, before and behind each. */
  function Spread(ts: seq<Token>, gaps: seq<string>): string
    requires |gaps| == |ts| + 1
  {
    if ts == [] then gaps[0] else gaps[0] + (Spelling(ts[0]) + Spread(ts[1..], gaps[1..]))
  }

  /** Two tokens that would run together if nothing stood between them. */
  predicate Clash(t: Token, u: Token) {
    (t.Word? && u.Word?) || (t == Sym('>') && (u == Sym('>') || u.DoubleRight?))
  }

  /** s consists of the tokens ts, with gaps between them where they would run together. */
  ghost predicate Lexing(s: string, ts: seq<Token>, gaps: seq<string>) {
    && |gaps| == |ts| + 1 && s == Spread(ts, gaps) && AllProper(ts)
    && (forall k :: 0 <= k < |gaps| ==> Spaces(gaps[k]))
    && forall k :: 0 <= k < |ts| - 1 && gaps[k + 1] == "" ==> !Clash(ts[k], ts[k + 1])
  }

  lemma SpreadBegins(ts: seq<Token>, gaps: seq<string>)
    requires |gaps| == |ts| + 1 && ts != [] && gaps[0] == "" && Proper(ts[0])
    ensures Spread(ts, gaps) != "" && Spread(ts, gaps)[0] == Spelling(ts[0])[0]
  {
  }

  /** What follows a token in a lexing ends it. */
  lemma LexingEnds(t: Token, ts: seq<Token>, gaps: seq<string>)
    requires |gaps| == |ts| + 1 && AllProper(ts) && Spaces(gaps[0]) && Proper(t)
    requires ts != [] && gaps[0] == "" ==> !Clash(t, ts[0])
    ensures Complete(t, Spread(ts, gaps))
  {
    hide Spread;
    if gaps[0] != "" {
      SpreadGap(ts, gaps);
    } else if ts != [] {
      SpreadBegins(ts, gaps);
    } else {
      SpreadNothing(gaps);
    }
  }

  lemma SpreadGap(ts: seq<Token>, gaps: seq<string>)
    requires |gaps| == |ts| + 1 && gaps[0] != ""
    ensures Spread(ts, gaps) != "" && Spread(ts, gaps)[0] == gaps[0][0]
  {
  }

  lemma SpreadNothing(gaps: seq<string>)
    requires |gaps| == 1 && gaps[0] == ""
    ensures Spread([], gaps) == ""
  {
  }

  lemma LexingRest(s: string, ts: seq<Token>, gaps: seq<string>)
    requires Lexing(s, ts, gaps) && ts != []
    ensures Lexing(Spread(ts[1..], gaps[1..]), ts[1..], gaps[1..])
    ensures |ts| > 1 && gaps[1] == "" ==> !Clash(ts[0], ts[1])
  {
    hide Spread, Clash, Spaces, Proper;
    var us, hs := ts[1..], gaps[1..];
    forall k | 0 <= k < |us| - 1 && hs[k + 1] == "" ensures !Clash(us[k], us[k + 1]) {
      assert us[k] == ts[k + 1] && us[k + 1] == ts[k + 2] && hs[k + 1] == gaps[k + 2];
    }
  }

  lemma {:induction false} LexingToks(s: string, ts: seq<Token>, gaps: seq<string>)
    requires Lexing(s, ts, gaps)
    ensures NulFree(s) && Toks(s) == ts
    decreases |ts|
  {
    hide Toks, NulFree, Proper, Spaces, Spelling, Clash, Lexing, Complete;
    LexingParts(s, ts, gaps);
    if ts == [] {
      RenderNone();
      SkipBlank(gaps[0], "");
      assert gaps[0] + "" == gaps[0];
    } else {
      var rest := Spread(ts[1..], gaps[1..]);
      LexingRest(s, ts, gaps);
      LexingParts(rest, ts[1..], gaps[1..]);
      LexingToks(rest, ts[1..], gaps[1..]);
      LexingEnds(ts[0], ts[1..], gaps[1..]);
      OneToken(ts[0], rest);
      SkipBlank(gaps[0], Spelling(ts[0]) + rest);
    }
  }

  lemma LexingParts(s: string, ts: seq<Token>, gaps: seq<string>)
    requires Lexing(s, ts, gaps)
    ensures |gaps| == |ts| + 1 && s == Spread(ts, gaps) && AllProper(ts) && Spaces(gaps[0])
    ensures ts != [] ==> Proper(ts[0])
  {
  }

  /** The first token of a string. */
  lemma FirstIs(s: string)
    requires s != "" && NulFree(s) && !IsSpace(s[0])
    ensures Proper(First(s)) && s == Spelling(First(s)) + s[Length(s)..] && NulFree(s[Length(s)..])
    ensures Complete(First(s), s[Length(s)..])
  {
    assert s == s[..Length(s)] + s[Length(s)..];
    if First(s).Word? {
      assert s[..Length(s)] == First(s).w;
    }
  }

  /** A token that has ended does not clash with the next. */
  lemma NoClash(t: Token, ts: seq<Token>, gaps: seq<string>)
    requires |gaps| == |ts| + 1 && ts != [] && Proper(ts[0]) && gaps[0] == "" && Complete(t, Spread(ts, gaps))
    ensures !Clash(t, ts[0])
  {
    hide Spread;
    SpreadBegins(ts, gaps);
  }

  lemma LexingMore(s: string, gap: string, t: Token, rest: string, ts: seq<Token>, gaps: seq<string>)
    requires Lexing(rest, ts, gaps) && Spaces(gap) && Proper(t) && Complete(t, rest) && s == gap + (Spelling(t) + rest)
    ensures Lexing(s, [t] + ts, [gap] + gaps)
  {
    hide Spaces, Proper, Complete, Clash, Spelling;
    var us, hs := [t] + ts, [gap] + gaps;
    assert us[1..] == ts && hs[1..] == gaps;
    forall k | 0 <= k < |us| - 1 && hs[k + 1] == "" ensures !Clash(us[k], us[k + 1]) {
      if k == 0 {
        NoClash(t, ts, gaps);
      } else {
        assert us[k] == ts[k - 1] && us[k + 1] == ts[k] && hs[k + 1] == gaps[k];
      }
    }
  }

  lemma {:induction false} ToksLexing(s: string) returns (gaps: seq<string>)
    requires NulFree(s)
    ensures Lexing(s, Toks(s), gaps)
    decreases |s|
  {
    hide First, Length, Spelling, Proper, Lexing, Complete;
    var gap, t := s[..Skip(s)], s[Skip(s)..];
    assert s == gap + t;
    if t == "" {
      gaps := [gap];
      assert gap + "" == gap;
      LexingNone(gap);
    } else {
      FirstIs(t);
      var rest := t[Length(t)..];
      var more := ToksLexing(rest);
      gaps := [gap] + more;
      LexingMore(s, gap, First(t), rest, Toks(rest), more);
    }
  }

  lemma LexingNone(gap: string)
    requires Spaces(gap)
    ensures Lexing(gap, [], [gap])
  {
  }

  /** The tokens of a string are ts exactly if it is the tokens ts in order, separated by white space at least where they
      would run together. */
  lemma ToksExactly(s: string, ts: seq<Token>)
    ensures NulFree(s) && Toks(s) == ts <==> exists gaps :: Lexing(s, ts, gaps)
  {
    hide Toks, NulFree, Lexing;
    if NulFree(s) && Toks(s) == ts {
      var gaps := ToksLexing(s);
    }
    if gaps :| Lexing(s, ts, gaps) {
      LexingToks(s, ts, gaps);
    }
  }

  /** Words and files that can be typed, and not too many arguments. */
  predicate Typable(t: Tree) {
    match t
    case Exec(args) => |args| < MAXARGS && forall k :: 0 <= k < |args| ==> Proper(Word(args[k]))
    case Redir(c, _, f) => Typable(c) && Proper(Word(f))
    case Pipe(l, r) => Typable(l) && Typable(r)
    case List(l, r) => Typable(l) && Typable(r)
    case Back(c) => Typable(c)
  }

  predicate AllProper(ts: seq<Token>) { forall k :: 0 <= k < |ts| ==> Proper(ts[k]) }

  lemma Join(a: seq<Token>, b: seq<Token>)
    requires AllProper(a) && AllProper(b)
    ensures AllProper(a + b)
  {
    hide Proper;
  }

  lemma Symbols()
    ensures forall c :: c in "<|>&;()" ==> AllProper([Sym(c)])
    ensures forall m, f :: Proper(Word(f)) ==> AllProper([Arrow(m), Word(f)])
  {
    assert "<|>&;()"[0] == '<' && "<|>&;()"[2] == '>';
  }

  lemma {:induction false} WordsProper(args: seq<string>)
    requires forall k :: 0 <= k < |args| ==> Proper(Word(args[k]))
    ensures AllProper(Words(args))
    decreases |args|
  {
    hide Proper;
    if args != [] {
      WordsProper(args[1..]);
    }
  }

  lemma {:induction false} BareProper(t: Tree)
    requires Typable(t)
    ensures Within(t) && AllProper(Bare(t))
    decreases t, 0
  {
    hide Proper, AllProper;
    Symbols();
    match t
    case Exec(args) => WordsProper(args);
    case Redir(c, m, f) =>
      PrintProper(c, 0);
      Join(Print(c, 0), [Arrow(m), Word(f)]);
    case Pipe(l, r) =>
      PrintProper(l, 0);
      PrintProper(r, 1);
      Join(Print(l, 0), [Sym('|')]);
      Join(Print(l, 0) + [Sym('|')], Print(r, 1));
    case List(l, r) =>
      PrintProper(l, 2);
      PrintProper(r, 3);
      Join(Print(l, 2), [Sym(';')]);
      Join(Print(l, 2) + [Sym(';')], Print(r, 3));
    case Back(c) =>
      PrintProper(c, 2);
      Join(Print(c, 2), [Sym('&')]);
  }

  lemma {:induction false} PrintProper(t: Tree, level: nat)
    requires Typable(t)
    ensures Within(t) && AllProper(Print(t, level))
    decreases t, 1
  {
    hide Proper, AllProper, Bare;
    BareProper(t);
    if Level(t) > level {
      Symbols();
      Join([Sym('(')], Bare(t));
      Join([Sym('(')] + Bare(t), [Sym(')')]);
    }
  }

  /** Every command that can be typed is read back as itself from its printed form, whatever the white space. */
  lemma TypedRoundTrip(t: Tree, gaps: seq<string>)
    requires Typable(t) && |gaps| == |Print(t, 3)| && forall k :: 0 <= k < |gaps| ==> Blank(gaps[k])
    ensures NulFree(Render(Print(t, 3), gaps)) && ParseCmd(Toks(Render(Print(t, 3), gaps))) == Ok(t, [])
  {
    hide Print, Toks, ParseCmd;
    PrintProper(t, 3);
    RenderToks(Print(t, 3), gaps);
    RoundTrip(t);
  }

  // ----- the code -----

  /** A token's place: [q, eq). */
  datatype Span = Span(q: nat, eq: nat)

  datatype Cmd =
    | ExecCmd(args: seq<Span>)
    | RedirCmd(cmd: Cmd, mode: Mode, file: Span)
    | PipeCmd(left: Cmd, right: Cmd)
    | ListCmd(left: Cmd, right: Cmd)
    | BackCmd(cmd: Cmd)

  datatype CRd = CRd(mode: Mode, file: Span)

  datatype Res = Got(cmd: Cmd, next: nat) | Failed(why: Error)

  /** The span is a whole word of s. */
  ghost predicate SpanOk(s: string, a: Span) {
    a.q < a.eq <= |s| && (forall k :: a.q <= k < a.eq ==> IsWord(s[k])) && (a.eq < |s| ==> !IsWord(s[a.eq]))
  }

  function Sub(s: string, a: Span): string { if a.q <= a.eq <= |s| then s[a.q..a.eq] else "" }

  function Strings(s: string, a: seq<Span>): seq<string> { seq(|a|, i requires 0 <= i < |a| => Sub(s, a[i])) }

  function RdText(s: string, r: CRd): Rd { Rd(r.mode, Sub(s, r.file)) }

  function RdTexts(s: string, rds: seq<CRd>): seq<Rd> { seq(|rds|, i requires 0 <= i < |rds| => RdText(s, rds[i])) }

  /** The command with its strings. */
  function Text(s: string, c: Cmd): Tree {
    match c
    case ExecCmd(args) => Exec(Strings(s, args))
    case RedirCmd(d, m, f) => Redir(Text(s, d), m, Sub(s, f))
    case PipeCmd(l, r) => Pipe(Text(s, l), Text(s, r))
    case ListCmd(l, r) => List(Text(s, l), Text(s, r))
    case BackCmd(d) => Back(Text(s, d))
  }

  ghost predicate SpansOk(s: string, c: Cmd) {
    match c
    case ExecCmd(args) => forall k :: 0 <= k < |args| ==> SpanOk(s, args[k])
    case RedirCmd(d, _, f) => SpansOk(s, d) && SpanOk(s, f)
    case PipeCmd(l, r) => SpansOk(s, l) && SpansOk(s, r)
    case ListCmd(l, r) => SpansOk(s, l) && SpansOk(s, r)
    case BackCmd(d) => SpansOk(s, d)
  }

  function CWrap(c: Cmd, rds: seq<CRd>): Cmd {
    if rds == [] then c else RedirCmd(CWrap(c, rds[..|rds| - 1]), rds[|rds| - 1].mode, rds[|rds| - 1].file)
  }

  /** The tokens from position i on. */
  ghost function From(s: string, i: nat): seq<Token>
    requires NulFree(s) && i <= |s|
  {
    Toks(s[i..])
  }

  function TokenOf(ret: char, w: string): Token {
    if ret == '+' then DoubleRight else if ret == 'a' then Word(w) else Sym(ret)
  }

  /** White space before a position does not matter. */
  lemma FromSkip(s: string, i: nat, j: nat)
    requires NulFree(s) && i <= j <= |s| && forall k :: i <= k < j ==> IsSpace(s[k])
    ensures From(s, j) == From(s, i)
  {
    hide Toks, IsSpace;
    if i < j {
      var gap := s[i..j];
      assert s[i..] == gap + s[j..];
      SkipBlank(gap, s[j..]);
    }
  }

  /** The first token and the tokens behind it. */
  lemma FromFirst(s: string, q: nat, eq: nat)
    requires NulFree(s) && q < |s| && !IsSpace(s[q]) && eq == q + Length(s[q..])
    ensures eq <= |s| && From(s, q) == [First(s[q..])] + From(s, eq)
  {
    hide Skip, Length, First;
    var t := s[q..];
    assert NulFree(t);
    SkipIs(t, 0);
    assert t[0..] == t && t[Length(t)..] == s[eq..];
  }

  method SkipSpace(s: string, i: nat) returns (j: nat)
    requires NulFree(s) && i <= |s|
    ensures i <= j <= |s| && From(s, j) == From(s, i) && (j < |s| ==> !IsSpace(s[j]))
  {
    hide Toks, IsSpace;
    j := i;
    while j < |s| && IsSpace(s[j])
      invariant i <= j <= |s| && forall k :: i <= k < j ==> IsSpace(s[k])
    {
      j := j + 1;
    }
    FromSkip(s, i, j);
  }

  method ScanWord(s: string, q: nat) returns (eq: nat)
    requires NulFree(s) && q <= |s|
    ensures q <= eq <= |s| && eq - q == WordEnd(s[q..]) && s[q..][..eq - q] == s[q..eq]
    ensures (forall k :: q <= k < eq ==> IsWord(s[k])) && (eq < |s| ==> !IsWord(s[eq]))
  {
    hide IsSpace, IsSymbol;
    eq := q;
    while eq < |s| && !IsSpace(s[eq]) && !IsSymbol(s[eq])
      invariant q <= eq <= |s| && forall k :: q <= k < eq ==> IsWord(s[k])
    {
      eq := eq + 1;
    }
    WordIs(s[q..], eq - q);
  }

  /** gettoken: the next token, 0 at the end; the cursor moves behind it and the white space after it. */
  method GetToken(s: string, i: nat) returns (ret: char, q: nat, eq: nat, next: nat)
    requires NulFree(s) && i <= |s|
    ensures i <= q <= eq <= next <= |s| && (ret == NUL <==> From(s, i) == [])
    ensures ret != NUL ==> i < next && From(s, i) == [TokenOf(ret, s[q..eq])] + From(s, next)
    ensures ret == 'a' ==> SpanOk(s, Span(q, eq))
    ensures ret == NUL ==> From(s, next) == []
  {
    hide Toks;
    q := SkipSpace(s, i);
    eq := q;
    if q == |s| {
      FromEnd(s);
      next := q;
      return NUL, q, eq, next;
    }
    FromFirst(s, q, q + Length(s[q..]));
    ret := s[q];
    if ret in "|();&<" {
      eq := q + 1;
    } else if ret == '>' {
      eq := q + 1;
      if eq < |s| && s[eq] == '>' {
        ret := '+';
        eq := eq + 1;
      }
    } else {
      ret := 'a';
      eq := ScanWord(s, q);
    }
    next := SkipSpace(s, eq);
  }

  lemma FromEnd(s: string)
    requires NulFree(s)
    ensures From(s, |s|) == []
  {
  }

  /** The token begins with one of the characters. */
  predicate HeadIn(ts: seq<Token>, toks: string) {
    ts != [] && match ts[0] case Sym(c) => c in toks case DoubleRight => '>' in toks case Word(_) => false
  }

  /** peek: is the next token one of those; the cursor moves to it. */
  method Peek(s: string, i: nat, toks: string) returns (r: bool, j: nat)
    requires NulFree(s) && i <= |s| && forall k :: 0 <= k < |toks| ==> IsSymbol(toks[k])
    ensures i <= j <= |s| && From(s, j) == From(s, i) && (r <==> HeadIn(From(s, i), toks))
    ensures j == |s| <==> From(s, i) == []
  {
    hide Toks;
    j := SkipSpace(s, i);
    r := j < |s| && s[j] in toks;
    if j < |s| {
      FromFirst(s, j, j + Length(s[j..]));
    } else {
      FromEnd(s);
    }
  }

  // ----- the parse functions -----

  /** The result on characters is that of the grammar on the tokens. */
  ghost predicate Agrees(s: string, r: Res, p: Parsed)
    requires NulFree(s)
  {
    match r
    case Got(c, n) => n <= |s| && SpansOk(s, c) && p == Ok(Text(s, c), From(s, n))
    case Failed(e) => p == Panic(e)
  }

  ghost predicate RdsOk(s: string, rds: seq<CRd>) {
    forall k :: 0 <= k < |rds| ==> SpanOk(s, rds[k].file)
  }

  lemma Heads(ts: seq<Token>)
    ensures HeadIn(ts, "<>") <==> AtRedir(ts)
    ensures HeadIn(ts, "|)&;") <==> AtStop(ts)
    ensures HeadIn(ts, "|") <==> At(ts, '|')
    ensures HeadIn(ts, "&") <==> At(ts, '&')
    ensures HeadIn(ts, ";") <==> At(ts, ';')
    ensures HeadIn(ts, "(") <==> At(ts, '(')
    ensures HeadIn(ts, ")") <==> At(ts, ')')
  {
    assert "<>"[0] == '<' && "<>"[1] == '>';
    assert "|)&;"[0] == '|' && "|)&;"[1] == ')' && "|)&;"[2] == '&' && "|)&;"[3] == ';';
  }

  lemma RedirStep(rds: seq<Rd>, a: Token, more: seq<Token>)
    requires AtRedir([a] + more)
    ensures more == [] || !more[0].Word? ==> ParseRedirs(rds, [a] + more) == NoFile
    ensures more != [] && more[0].Word? ==>
              ParseRedirs(rds, [a] + more) == ParseRedirs(rds + [Rd(ModeOf(a), more[0].w)], more[1..])
  {
    var ts := [a] + more;
    assert ts[1..] == more && (more != [] ==> ts[1] == more[0] && ts[2..] == more[1..]);
  }

  lemma TextMore(s: string, rds: seq<CRd>, x: CRd)
    ensures RdTexts(s, rds + [x]) == RdTexts(s, rds) + [RdText(s, x)]
  {
  }

  method Redirs(s: string, i: nat, rds0: seq<CRd>) returns (ok: bool, rds: seq<CRd>, j: nat)
    requires NulFree(s) && i <= |s| && RdsOk(s, rds0)
    ensures ok ==> i <= j <= |s| && RdsOk(s, rds)
    ensures ok ==> ParseRedirs(RdTexts(s, rds0), From(s, i)) == Rds(RdTexts(s, rds), From(s, j))
    ensures !ok ==> ParseRedirs(RdTexts(s, rds0), From(s, i)) == NoFile
  {
    hide From, ParseRedirs, HeadIn, AtRedir, RdTexts, SpanOk, TokenOf;
    rds, j := rds0, i;
    ghost var goal := ParseRedirs(RdTexts(s, rds0), From(s, i));
    while true
      invariant i <= j <= |s| && RdsOk(s, rds) && ParseRedirs(RdTexts(s, rds), From(s, j)) == goal
      decreases |s| - j
    {
      var at, tok, ret, q, eq, k;
      Heads(From(s, j));
      at, j := Peek(s, j, "<>");
      if !at {
        NoMoreRedirs(RdTexts(s, rds), From(s, j));
        return true, rds, j;
      }
      RedirSome(From(s, j));
      tok, q, eq, k := GetToken(s, j);
      ghost var a := TokenOf(tok, s[q..eq]);
      RedirStep(RdTexts(s, rds), a, From(s, k));
      Arrived(tok, s[q..eq], From(s, k));
      ret, q, eq, j := GetToken(s, k);
      if ret != 'a' {
        NoWord(ret, s[q..eq]);
        return false, rds, j;
      }
      IsAWord(s[q..eq]);
      assert ([TokenOf(ret, s[q..eq])] + From(s, j))[1..] == From(s, j);
      var m := if tok == '<' then In else if tok == '>' then Out else Add;
      TextMore(s, rds, CRd(m, Span(q, eq)));
      rds := rds + [CRd(m, Span(q, eq))];
    }
  }

  lemma NoMoreRedirs(rds: seq<Rd>, ts: seq<Token>)
    requires !AtRedir(ts)
    ensures ParseRedirs(rds, ts) == Rds(rds, ts)
  {
  }

  lemma RedirSome(ts: seq<Token>)
    requires AtRedir(ts)
    ensures ts != []
  {
  }

  lemma Arrived(tok: char, w: string, more: seq<Token>)
    ensures AtRedir([TokenOf(tok, w)] + more) ==>
              ModeOf(TokenOf(tok, w)) == if tok == '<' then In else if tok == '>' then Out else Add
  {
  }

  lemma NoWord(ret: char, w: string)
    requires ret != 'a'
    ensures !TokenOf(ret, w).Word?
  {
  }

  lemma IsAWord(w: string)
    ensures TokenOf('a', w) == Word(w)
  {
  }

  lemma {:induction false} WrapText(s: string, c: Cmd, rds: seq<CRd>)
    requires SpansOk(s, c) && RdsOk(s, rds)
    ensures SpansOk(s, CWrap(c, rds)) && Text(s, CWrap(c, rds)) == Wrap(Text(s, c), RdTexts(s, rds))
    decreases |rds|
  {
    hide SpanOk;
    if rds != [] {
      var front := rds[..|rds| - 1];
      WrapText(s, c, front);
      assert RdTexts(s, rds)[..|rds| - 1] == RdTexts(s, front);
    }
  }

  lemma ArgsStop(args: seq<string>, rds: seq<Rd>, ts: seq<Token>)
    requires AtStop(ts) || ts == []
    ensures ParseArgs(args, rds, ts) == Ok(Wrap(Exec(args), rds), ts)
  {
  }

  lemma ArgsNext(args: seq<string>, rds: seq<Rd>, t: Token, more: seq<Token>)
    requires !AtStop([t] + more)
    ensures ParseArgs(args, rds, [t] + more)
         == if !t.Word? then Panic(Syntax)
            else if |args| + 1 >= MAXARGS then Panic(TooManyArgs)
            else match ParseRedirs(rds, more)
                 case NoFile => Panic(MissingFile)
                 case Rds(rds', rest) => ParseArgs(args + [t.w], rds', rest)
  {
    hide ParseRedirs, Wrap;
    assert ([t] + more)[1..] == more;
  }

  lemma StringsMore(s: string, args: seq<Span>, a: Span)
    requires a.q <= a.eq <= |s|
    ensures Strings(s, args + [a]) == Strings(s, args) + [s[a.q..a.eq]]
  {
  }

  ghost predicate ArgsOk(s: string, args: seq<Span>) {
    forall k :: 0 <= k < |args| ==> SpanOk(s, args[k])
  }

  /** parseexec when no parenthesis follows. */
  method Simple(s: string, i: nat) returns (r: Res)
    requires NulFree(s) && i <= |s| && !At(From(s, i), '(')
    ensures Agrees(s, r, ParseExec(From(s, i))) && (r.Got? ==> i <= r.next)
  {
    hide From, ParseRedirs, ParseArgs, HeadIn, AtStop, RdTexts, SpanOk, TokenOf, Strings, CWrap, Wrap, ParseBlock, At;
    var args: seq<Span> := [];
    NoneText(s);
    var ok, rds, j := Redirs(s, i, []);
    if !ok {
      return Failed(MissingFile);
    }
    ghost var goal := ParseArgs([], RdTexts(s, rds), From(s, j));
    while true
      invariant i <= j <= |s| && RdsOk(s, rds) && ArgsOk(s, args) && |args| < MAXARGS
      invariant ParseArgs(Strings(s, args), RdTexts(s, rds), From(s, j)) == goal
      decreases |s| - j
    {
      var at, ret, q, eq, k;
      Heads(From(s, j));
      at, j := Peek(s, j, "|)&;");
      if at {
        break;
      }
      ret, q, eq, k := GetToken(s, j);
      if ret == NUL {
        j := k;
        break;
      }
      ArgsNext(Strings(s, args), RdTexts(s, rds), TokenOf(ret, s[q..eq]), From(s, k));
      if ret != 'a' {
        NoWord(ret, s[q..eq]);
        return Failed(Syntax);
      }
      IsAWord(s[q..eq]);
      LengthOfStrings(s, args);
      SpanIn(s, Span(q, eq));
      StringsMore(s, args, Span(q, eq));
      args := args + [Span(q, eq)];
      if |args| >= MAXARGS {
        return Failed(TooManyArgs);
      }
      ok, rds, j := Redirs(s, k, rds);
      if !ok {
        return Failed(MissingFile);
      }
    }
    ArgsStop(Strings(s, args), RdTexts(s, rds), From(s, j));
    WrapText(s, ExecCmd(args), rds);
    r := Got(CWrap(ExecCmd(args), rds), j);
  }

  lemma NoneText(s: string)
    ensures RdTexts(s, []) == [] && Strings(s, []) == []
  {
  }

  lemma LengthOfStrings(s: string, args: seq<Span>)
    ensures |Strings(s, args)| == |args|
  {
  }

  lemma SpanIn(s: string, a: Span)
    requires SpanOk(s, a)
    ensures a.q <= a.eq <= |s|
  {
  }

  method ReadExec(s: string, i: nat) returns (r: Res)
    requires NulFree(s) && i <= |s|
    ensures Agrees(s, r, ParseExec(From(s, i))) && (r.Got? ==> i <= r.next)
    decreases |s| - i, 1
  {
    hide From, ParseLine, ParseBlock, ParseArgs, ParseRedirs, HeadIn, Agrees, At;
    Heads(From(s, i));
    var at, j := Peek(s, i, "(");
    if at {
      r := ReadBlock(s, j);
    } else {
      r := Simple(s, j);
    }
  }

  method ReadBlock(s: string, i: nat) returns (r: Res)
    requires NulFree(s) && i <= |s| && At(From(s, i), '(')
    ensures Agrees(s, r, ParseBlock(From(s, i))) && (r.Got? ==> i <= r.next)
    decreases |s| - i, 0
  {
    hide From, ParseLine, ParseRedirs, HeadIn, SpanOk, TokenOf, CWrap, Wrap, RdTexts;
    var ret, q, eq, j := GetToken(s, i);
    assert From(s, i)[1..] == From(s, j);
    r := ReadLine(s, j);
    if r.Failed? {
      return;
    }
    var c := r.cmd;
    Heads(From(s, r.next));
    var at, k := Peek(s, r.next, ")");
    if !at {
      return Failed(MissingParen);
    }
    ret, q, eq, j := GetToken(s, k);
    assert From(s, k)[1..] == From(s, j);
    NoneText(s);
    var ok, rds, n := Redirs(s, j, []);
    if !ok {
      return Failed(MissingFile);
    }
    WrapText(s, c, rds);
    r := Got(CWrap(c, rds), n);
  }

  method ReadPipe(s: string, i: nat) returns (r: Res)
    requires NulFree(s) && i <= |s|
    ensures Agrees(s, r, ParsePipe(From(s, i))) && (r.Got? ==> i <= r.next)
    decreases |s| - i, 2
  {
    hide From, ParseExec, HeadIn, SpanOk, TokenOf;
    r := ReadExec(s, i);
    if r.Failed? {
      return;
    }
    var c := r.cmd;
    Heads(From(s, r.next));
    var at, k := Peek(s, r.next, "|");
    if !at {
      return Got(c, k);
    }
    var ret, q, eq, j := GetToken(s, k);
    assert From(s, k)[1..] == From(s, j);
    r := ReadPipe(s, j);
    if r.Failed? {
      return;
    }
    r := Got(PipeCmd(c, r.cmd), r.next);
  }

  method ReadLine(s: string, i: nat) returns (r: Res)
    requires NulFree(s) && i <= |s|
    ensures Agrees(s, r, ParseLine(From(s, i))) && (r.Got? ==> i <= r.next)
    decreases |s| - i, 3
  {
    hide From, ParsePipe, HeadIn, SpanOk, TokenOf;
    r := ReadPipe(s, i);
    if r.Failed? {
      return;
    }
    var c, n := r.cmd, r.next;
    ghost var goal := Backs(Text(s, c), From(s, n));
    while true
      invariant i <= n <= |s| && SpansOk(s, c) && Backs(Text(s, c), From(s, n)) == goal
      decreases |s| - n
    {
      var at, ret, q, eq, k;
      Heads(From(s, n));
      at, n := Peek(s, n, "&");
      if !at {
        break;
      }
      ret, q, eq, k := GetToken(s, n);
      assert From(s, n)[1..] == From(s, k);
      n := k;
      c := BackCmd(c);
    }
    Heads(From(s, n));
    var at, k := Peek(s, n, ";");
    if !at {
      return Got(c, k);
    }
    var ret, q, eq, j := GetToken(s, k);
    assert From(s, k)[1..] == From(s, j);
    r := ReadLine(s, j);
    if r.Failed? {
      return;
    }
    r := Got(ListCmd(c, r.cmd), r.next);
  }

  /** parsecmd: the result of the grammar on the tokens of the input. */
  method ReadCmd(s: string) returns (r: Res)
    requires NulFree(s)
    ensures Agrees(s, r, ParseCmd(Toks(s)))
  {
    hide Toks, ParseLine;
    assert s[0..] == s;
    r := ReadLine(s, 0);
    if r.Failed? {
      return;
    }
    var _, j := Peek(s, r.next, "");
    if j != |s| {
      return Failed(Leftovers);
    }
  }

  // ----- nulterminate -----

  ghost function Spans(c: Cmd): set<Span> {
    match c
    case ExecCmd(args) => set a | a in args
    case RedirCmd(d, _, f) => Spans(d) + {f}
    case PipeCmd(l, r) => Spans(l) + Spans(r)
    case ListCmd(l, r) => Spans(l) + Spans(r)
    case BackCmd(d) => Spans(d)
  }

  lemma {:induction false} SpansAre(s: string, c: Cmd)
    ensures SpansOk(s, c) <==> forall a :: a in Spans(c) ==> SpanOk(s, a)
    decreases c
  {
    hide SpanOk;
    match c
    case ExecCmd(args) =>
      assert forall k :: 0 <= k < |args| ==> args[k] in Spans(c);
    case RedirCmd(d, _, _) => SpansAre(s, d);
    case PipeCmd(l, r) =>
      SpansAre(s, l);
      SpansAre(s, r);
    case ListCmd(l, r) =>
      SpansAre(s, l);
      SpansAre(s, r);
    case BackCmd(d) => SpansAre(s, d);
  }

  /** k is where some token of the command ends. */
  ghost predicate Ends(c: Cmd, k: nat) {
    exists a :: a in Spans(c) && a.eq == k
  }

  /** nulterminate writes a NUL at the end of every token of the command, and nothing else. */
  method Nulterminate(c: Cmd, buf: array<char>, ghost s: string)
    requires SpansOk(s, c) && buf.Length == |s| + 1
    modifies buf
    ensures forall k: nat :: k < buf.Length ==> buf[k] == if Ends(c, k) then NUL else old(buf[k])
    decreases c
  {
    hide Ends;
    match c
    case ExecCmd(args) => CutArgs(args, buf, s);
    case RedirCmd(d, m, f) =>
      Nulterminate(d, buf, s);
      buf[f.eq] := NUL;
      forall k: nat ensures Ends(c, k) <==> Ends(d, k) || k == f.eq {
        EndsSplit(c, k);
      }
    case PipeCmd(l, r) =>
      Nulterminate(l, buf, s);
      Nulterminate(r, buf, s);
      forall k: nat ensures Ends(c, k) <==> Ends(l, k) || Ends(r, k) {
        EndsSplit(c, k);
      }
    case ListCmd(l, r) =>
      Nulterminate(l, buf, s);
      Nulterminate(r, buf, s);
      forall k: nat ensures Ends(c, k) <==> Ends(l, k) || Ends(r, k) {
        EndsSplit(c, k);
      }
    case BackCmd(d) =>
      Nulterminate(d, buf, s);
      forall k: nat ensures Ends(c, k) <==> Ends(d, k) {
        EndsSplit(c, k);
      }
  }

  method CutArgs(args: seq<Span>, buf: array<char>, ghost s: string)
    requires (forall k :: 0 <= k < |args| ==> SpanOk(s, args[k])) && buf.Length == |s| + 1
    modifies buf
    ensures forall k: nat :: k < buf.Length ==> buf[k] == if Ends(ExecCmd(args), k) then NUL else old(buf[k])
  {
    hide SpanOk;
    var i := 0;
    while i < |args|
      invariant 0 <= i <= |args|
      invariant forall k: nat :: k < buf.Length ==> buf[k] == if Ends(ExecCmd(args[..i]), k) then NUL else old(buf[k])
    {
      SpanIn(s, args[i]);
      forall k: nat ensures Ends(ExecCmd(args[..i + 1]), k) <==> Ends(ExecCmd(args[..i]), k) || k == args[i].eq {
        assert args[..i + 1] == args[..i] + [args[i]];
        EndsMore(args[..i], args[i], k);
      }
      buf[args[i].eq] := NUL;
      i := i + 1;
    }
    assert args[..i] == args;
  }

  lemma EndsMore(args: seq<Span>, a: Span, k: nat)
    ensures Ends(ExecCmd(args + [a]), k) <==> Ends(ExecCmd(args), k) || k == a.eq
  {
    assert Spans(ExecCmd(args + [a])) == Spans(ExecCmd(args)) + {a};
    if k == a.eq {
      assert a in Spans(ExecCmd(args + [a]));
    }
  }

  lemma EndsSplit(c: Cmd, k: nat)
    ensures match c
            case ExecCmd(_) => true
            case RedirCmd(d, _, f) => Ends(c, k) <==> Ends(d, k) || k == f.eq
            case PipeCmd(l, r) => Ends(c, k) <==> Ends(l, k) || Ends(r, k)
            case ListCmd(l, r) => Ends(c, k) <==> Ends(l, k) || Ends(r, k)
            case BackCmd(d) => Ends(c, k) <==> Ends(d, k)
  {
    if c.RedirCmd? {
      assert c.file in Spans(c);
    }
  }

  /** The C string at position q of a buffer. */
  function CString(b: string, q: nat): string
    requires q <= |b|
    decreases |b| - q
  {
    if q == |b| || b[q] == NUL then "" else [b[q]] + CString(b, q + 1)
  }

  lemma {:induction false} CStringIs(b: string, q: nat, e: nat)
    requires q <= e < |b| && b[e] == NUL && forall k :: q <= k < e ==> b[k] != NUL
    ensures CString(b, q) == b[q..e]
    decreases e - q
  {
    if q < e {
      CStringIs(b, q + 1, e);
    }
  }

  /** parsecmd on the line in buf: afterwards every argument and file name of the command reads as its token. */
  method ParseCommand(buf: array<char>, n: nat) returns (r: Res)
    requires n < buf.Length && buf.Length == n + 1 && buf[n] == NUL && NulFree(buf[..n])
    modifies buf
    ensures Agrees(old(buf[..n]), r, ParseCmd(Toks(old(buf[..n]))))
    ensures r.Got? ==> forall a :: a in Spans(r.cmd) ==>
              a.q < |buf[..]| && CString(buf[..], a.q) == Sub(old(buf[..n]), a)
  {
    hide Toks, ParseCmd, Text, Spans;
    ghost var s := buf[..n];
    r := ReadCmd(buf[..n]);
    if r.Failed? {
      return;
    }
    Nulterminate(r.cmd, buf, s);
    SpansAre(s, r.cmd);
    forall a | a in Spans(r.cmd) ensures a.q < |buf[..]| && CString(buf[..], a.q) == Sub(s, a) {
      TokenReads(buf[..], s, r.cmd, a);
    }
  }

  /** Terminating tokens leaves each of them whole: no token ends inside another. */
  lemma TokenReads(b: string, s: string, c: Cmd, a: Span)
    requires (forall x :: x in Spans(c) ==> SpanOk(s, x)) && a in Spans(c) && |b| == |s| + 1
    requires forall k: nat :: k < |b| ==> b[k] == if Ends(c, k) then NUL else if k < |s| then s[k] else NUL
    ensures a.q < |b| && CString(b, a.q) == Sub(s, a)
  {
    hide Spans;
    assert SpanOk(s, a) && Ends(c, a.eq);
    forall k | a.q <= k < a.eq ensures b[k] == s[k] != NUL {
      assert !Ends(c, k);
    }
    CStringIs(b, a.q, a.eq);
    assert b[a.q..a.eq] == s[a.q..a.eq];
  }
}
