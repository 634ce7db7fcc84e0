/** The buffering loop of grep in user/grep.c. */
module Grep {
  import opened Regex

  const BUFSIZE: nat := 1024
  const NUL: char := '\0'

  /** The position of the first newline, or the length. */
  function Newline(s: string): (q: nat)
    ensures q <= |s| && (q < |s| ==> s[q] == '\n') && forall k :: 0 <= k < q ==> s[k] != '\n'
  {
    if s == "" || s[0] == '\n' then 0 else 1 + Newline(s[1..])
  }

  /** The newline-terminated lines of the input, without their newlines. */
  function Lines(s: string): seq<string>
    decreases |s|
  {
    var q := Newline(s);
    if q == |s| then [] else [s[..q]] + Lines(s[q + 1..])
  }

  /** Lines with a newline behind each. */
  function Joined(lines: seq<string>): string {
    if lines == [] then "" else lines[0] + ("\n" + Joined(lines[1..]))
  }

  /** s is these lines, each with its newline, and a rest without one. */
  ghost predicate Splits(s: string, lines: seq<string>, tail: string) {
    s == Joined(lines) + tail && '\n' !in tail && forall k :: 0 <= k < |lines| ==> '\n' !in lines[k]
  }

  lemma FirstLine(l: string, rest: string)
    requires '\n' !in l
    ensures Lines(l + ("\n" + rest)) == [l] + Lines(rest)
  {
    var s := l + ("\n" + rest);
    assert s[|l|] == '\n' && s[..|l|] == l && s[|l| + 1..] == rest;
    assert Newline(s) == |l|;
  }

  lemma {:induction false} SplitLines(s: string, lines: seq<string>, tail: string)
    requires Splits(s, lines, tail)
    ensures Lines(s) == lines
    decreases |lines|
  {
    if lines == [] {
      assert s == tail && Newline(s) == |s|;
    } else {
      var rest := Joined(lines[1..]) + tail;
      assert s == lines[0] + ("\n" + rest);
      FirstLine(lines[0], rest);
      SplitLines(rest, lines[1..], tail);
    }
  }

  lemma {:induction false} LinesSplit(s: string) returns (tail: string)
    ensures Splits(s, Lines(s), tail)
    decreases |s|
  {
    hide Splits;
    var q := Newline(s);
    if q == |s| {
      tail := s;
      SplitsNone(s);
    } else {
      tail := LinesSplit(s[q + 1..]);
      assert s == s[..q] + ("\n" + s[q + 1..]);
      assert '\n' !in s[..q];
      SplitsMore(s[..q], s[q + 1..], Lines(s[q + 1..]), tail);
    }
  }

  lemma SplitsNone(s: string)
    requires Newline(s) == |s|
    ensures Splits(s, [], s)
  {
    assert Joined([]) + s == s;
  }

  lemma SplitsMore(l: string, rest: string, lines: seq<string>, tail: string)
    requires Splits(rest, lines, tail) && '\n' !in l
    ensures Splits(l + ("\n" + rest), [l] + lines, tail)
  {
    var all := [l] + lines;
    assert all[1..] == lines;
    assert l + ("\n" + rest) == Joined(all) + tail;
    forall k | 0 <= k < |all| ensures '\n' !in all[k] {
    }
  }

  /** The lines of a string are the one way to cut it behind each of its newlines. */
  lemma LinesExactly(s: string, lines: seq<string>)
    ensures Lines(s) == lines <==> exists tail :: Splits(s, lines, tail)
  {
    hide Splits, Lines;
    if Lines(s) == lines {
      var tail := LinesSplit(s);
    }
    if tail :| Splits(s, lines, tail) {
      SplitLines(s, lines, tail);
    }
  }

  /** The lines up to the first that does not fit the buffer together with its newline. */
  function Fitting(lines: seq<string>): (r: seq<string>)
    ensures r <= lines && (forall k :: 0 <= k < |r| ==> |r[k]| + 1 < BUFSIZE)
    ensures |r| < |lines| ==> |lines[|r|]| + 1 >= BUFSIZE
  {
    if lines == [] || |lines[0]| + 1 >= BUFSIZE then [] else [lines[0]] + Fitting(lines[1..])
  }

  /** The matching ones of these lines, with their newlines. */
  ghost function Show(re: string, lines: seq<string>): string {
    if lines == [] then "" else (if Matches(re, lines[0]) then lines[0] + "\n" else "") + Show(re, lines[1..])
  }

  lemma {:induction false} ShowJoin(re: string, a: seq<string>, b: seq<string>)
    ensures Show(re, a + b) == Show(re, a) + Show(re, b)
  {
    hide Matches;
    if a == [] {
      assert a + b == b;
    } else {
      ShowJoin(re, a[1..], b);
      assert (a + b)[0] == a[0] && (a + b)[1..] == a[1..] + b;
    }
  }

  lemma {:induction false} JoinedMore(lines: seq<string>, l: string)
    ensures Joined(lines + [l]) == Joined(lines) + (l + "\n")
    decreases |lines|
  {
    var all := lines + [l];
    if lines == [] {
      assert all[1..] == [];
    } else {
      assert all[1..] == lines[1..] + [l];
      JoinedMore(lines[1..], l);
    }
  }

  ghost function Select(lines: seq<string>, idx: seq<nat>): seq<string>
    requires forall k :: 0 <= k < |idx| ==> idx[k] < |lines|
  {
    seq(|idx|, k requires 0 <= k < |idx| => lines[idx[k]])
  }

  /** idx are the numbers of the matching lines, in order. */
  ghost predicate Matching(re: string, lines: seq<string>, idx: seq<nat>) {
    && (forall k :: 0 <= k < |idx| ==> idx[k] < |lines|)
    && (forall j, k :: 0 <= j < k < |idx| ==> idx[j] < idx[k])
    && forall i: nat :: i < |lines| ==> (i in idx <==> Matches(re, lines[i]))
  }

  /** What is shown is exactly the matching lines, each once, in order, with its newline. */
  lemma {:induction false} ShowSelects(re: string, lines: seq<string>) returns (idx: seq<nat>)
    ensures Matching(re, lines, idx) && Show(re, lines) == Joined(Select(lines, idx))
    decreases |lines|
  {
    hide Matches, Joined;
    if lines == [] {
      idx := [];
      assert Select(lines, idx) == [];
      NoneJoined();
    } else {
      var n := |lines| - 1;
      var front, l := lines[..n], lines[n];
      assert lines == front + [l];
      var prev := ShowSelects(re, front);
      ShowJoin(re, front, [l]);
      ShowOne(re, l);
      if Matches(re, l) {
        idx := prev + [n];
        assert Select(lines, idx) == Select(front, prev) + [l];
        JoinedMore(Select(front, prev), l);
      } else {
        idx := prev;
        assert Select(lines, idx) == Select(front, prev);
      }
      assert forall i: nat :: i < n ==> lines[i] == front[i];
    }
  }

  lemma NoneJoined()
    ensures Joined([]) == ""
  {
  }

  lemma ShowOne(re: string, l: string)
    ensures Show(re, [l]) == if Matches(re, l) then l + "\n" else ""
  {
    hide Matches;
    assert [l][1..] == [];
  }

  lemma {:induction false} ShowNothing(re: string, lines: seq<string>)
    ensures Show(re, lines) == "" <==> forall k :: 0 <= k < |lines| ==> !Matches(re, lines[k])
  {
    hide Matches;
    if lines != [] {
      ShowNothing(re, lines[1..]);
      if forall k :: 0 <= k < |lines| ==> !Matches(re, lines[k]) {
        assert forall k :: 0 <= k < |lines[1..]| ==> !Matches(re, lines[1..][k]);
      }
      if Show(re, lines) == "" {
        forall k | 0 <= k < |lines| ensures !Matches(re, lines[k]) {
          if k > 0 {
            assert lines[k] == lines[1..][k - 1];
          }
        }
      }
    }
  }

  /** Nothing that matches is left out exactly if no line from the first one that does not fit on matches. */
  lemma CompleteIff(re: string, lines: seq<string>)
    ensures Show(re, Fitting(lines)) == Show(re, lines)
        <==> forall k :: |Fitting(lines)| <= k < |lines| ==> !Matches(re, lines[k])
  {
    hide Matches, Show;
    var f := Fitting(lines);
    var g := lines[|f|..];
    assert lines == f + g;
    ShowJoin(re, f, g);
    ShowNothing(re, g);
    if Show(re, f) == Show(re, lines) {
      assert Show(re, g) == "";
      forall k | |f| <= k < |lines| ensures !Matches(re, lines[k]) {
        assert g[k - |f|] == lines[k];
      }
    }
  }

  /** When all lines fit, all matching ones are shown. */
  lemma {:induction false} AllFit(lines: seq<string>)
    ensures Fitting(lines) == lines <==> forall k :: 0 <= k < |lines| ==> |lines[k]| + 1 < BUFSIZE
  {
    if lines != [] {
      AllFit(lines[1..]);
      if forall k :: 0 <= k < |lines| ==> |lines[k]| + 1 < BUFSIZE {
        assert forall k :: 0 <= k < |lines[1..]| ==> |lines[1..][k]| + 1 < BUFSIZE;
      }
      if Fitting(lines) == lines {
        assert Fitting(lines[1..]) == lines[1..];
        forall k | 0 <= k < |lines| ensures |lines[k]| + 1 < BUFSIZE {
          if k > 0 {
            assert lines[k] == lines[1..][k - 1];
          }
        }
      }
    }
  }

  /** What grep shows of input s. */
  ghost function Shown(re: string, s: string): string { Show(re, Fitting(Lines(s))) }

  lemma TwoLines(long: string)
    requires '\n' !in long
    ensures Lines(long + "\na\n") == [long, "a"]
  {
    var s := long + "\na\n";
    assert s[|long|] == '\n';
    assert Newline(s) == |long|;
    assert s[|long| + 1..] == "a\n" && s[..|long|] == long;
    assert Newline("a\n") == 1 && "a\n"[..1] == "a" && "a\n"[2..] == "";
  }

  /** After a line of 1023 characters nothing is shown any more, although the empty pattern matches every line. */
  lemma LongLineHides(long: string)
    requires |long| >= BUFSIZE - 1 && '\n' !in long
    ensures Shown("", long + "\na\n") == "" && Show("", Lines(long + "\na\n")) != ""
  {
    hide Show;
    TwoLines(long);
    var i: nat := 0;
    HereEmpty("a", i);
    assert Items("") == [] && i <= |"a"| && Here(Items(""), "a", i);
    assert Matches("", [long, "a"][1]);
    ShowNothing("", [long, "a"]);
    ShowNothing("", []);
  }

  /** One terminated line that fits, and then the rest. */
  lemma ShownLine(re: string, s: string, q: nat)
    requires q < |s| && q + 1 < BUFSIZE && s[q] == '\n' && forall k :: 0 <= k < q ==> s[k] != '\n'
    ensures Shown(re, s) == (if Matches(re, s[..q]) then s[..q] + "\n" else "") + Shown(re, s[q + 1..])
  {
    hide Matches;
    assert Newline(s) == q;
  }

  /** Nothing is shown of a text whose first 1023 bytes, or all of whose bytes, are no newline. */
  lemma ShownNone(re: string, s: string, n: nat)
    requires n <= |s| && (n == |s| || n == BUFSIZE - 1) && forall k :: 0 <= k < n ==> s[k] != '\n'
    ensures Shown(re, s) == ""
  {
    hide Matches;
    assert Newline(s) >= n;
  }

  /** How many bytes read returns when want are ready: at least one, unless no room or no input is left. */
  function Ready(want: nat, room: nat, left: nat): (n: nat)
    ensures n <= room && n <= left && (n == 0 <==> room == 0 || left == 0)
  {
    var most := if room < left then room else left;
    if want == 0 && most > 0 then 1 else if want < most then want else most
  }

  predicate NulFree(s: string) { forall k :: 0 <= k < |s| ==> s[k] != NUL }

  /** strchr(p, '\n'), in a buffer with a NUL at m. */
  method Strchr(buf: array<char>, p: nat, m: nat) returns (q: nat)
    requires p <= m < buf.Length && buf[m] == NUL && forall k :: p <= k < m ==> buf[k] != NUL
    ensures p <= q <= m && (forall k :: p <= k < q ==> buf[k] != '\n') && (q < m ==> buf[q] == '\n')
  {
    q := p;
    while buf[q] != NUL
      invariant p <= q <= m && forall k :: p <= k < q ==> buf[k] != '\n'
      decreases m - q
    {
      if buf[q] == '\n' {
        return;
      }
      q := q + 1;
    }
  }

  /** The string at p: up to the first NUL. */
  method Text(buf: array<char>, p: nat, ghost q: nat) returns (s: string)
    requires p <= q < buf.Length && buf[q] == NUL && forall k :: p <= k < q ==> buf[k] != NUL
    ensures s == buf[p..q]
  {
    var k := p;
    while buf[k] != NUL
      invariant p <= k <= q
      decreases q - k
    {
      k := k + 1;
    }
    s := buf[p..k];
  }

  /** memmove(buf, p, n) with p behind the start of buf. */
  method Memmove(buf: array<char>, p: nat, n: nat)
    requires p + n <= buf.Length
    modifies buf
    ensures buf[..n] == old(buf[p..p + n])
  {
    var i := 0;
    while i < n
      invariant 0 <= i <= n
      invariant forall k :: 0 <= k < i ==> buf[k] == old(buf[p + k])
      invariant forall k :: i <= k < buf.Length ==> buf[k] == old(buf[k])
    {
      buf[i] := buf[p + i];
      i := i + 1;
    }
  }

  /** read: the bytes go behind the first m. */
  method Fill(buf: array<char>, m: nat, bytes: string)
    requires m + |bytes| <= buf.Length
    modifies buf
    ensures buf[..m + |bytes|] == old(buf[..m]) + bytes
  {
    var i := 0;
    while i < |bytes|
      invariant 0 <= i <= |bytes|
      invariant buf[..m + i] == old(buf[..m]) + bytes[..i]
    {
      buf[m + i] := bytes[i];
      i := i + 1;
    }
  }

  /** The inner loop: the terminated lines in buf[..m], of an input that goes on with left, are shown if they match;
      p is where the unterminated rest begins. */
  method ShowLines(re: string, buf: array<char>, m: nat, ghost left: string) returns (out: string, p: nat)
    requires m < BUFSIZE == buf.Length && buf[m] == NUL && forall k :: 0 <= k < m ==> buf[k] != NUL
    modifies buf
    ensures p <= m && buf[p..m] == old(buf[p..m]) && forall k :: p <= k < m ==> buf[k] != '\n'
    ensures out + Shown(re, buf[p..m] + left) == Shown(re, old(buf[..m]) + left)
  {
    hide Shown, Matches;
    p, out := 0, "";
    ghost var s := buf[..m];
    assert buf[0..m] == s;
    while true
      invariant 0 <= p <= m && buf[m] == NUL && forall k :: p <= k < m ==> buf[k] == s[k]
      invariant out + Shown(re, s[p..] + left) == Shown(re, s + left)
      decreases m - p
    {
      assert buf[p..m] == s[p..];
      var q := Strchr(buf, p, m);
      if q == m {
        return;
      }
      ghost var rest := s[p..] + left;
      ShownLine(re, rest, q - p);
      assert rest[..q - p] == s[p..q] && rest[q - p + 1..] == s[q + 1..] + left;
      buf[q] := NUL;
      assert buf[p..q] == s[p..q];
      var line := Text(buf, p, q);
      var r := Match(re, line);
      if r {
        buf[q] := '\n';
        assert buf[p..q + 1] == s[p..q] + "\n";
        out := out + buf[p..q + 1];
      }
      p := q + 1;
    }
  }

  /** The body of the outer loop, after read has delivered bytes: the unterminated rest is at the front again. */
  method Round(re: string, buf: array<char>, m: nat, bytes: string, ghost left: string) returns (out: string, m': nat)
    requires m + |bytes| < BUFSIZE == buf.Length && NulFree(buf[..m]) && NulFree(bytes)
    modifies buf
    ensures m' <= m + |bytes| && NulFree(buf[..m']) && forall k :: 0 <= k < m' ==> buf[..m'][k] != '\n'
    ensures out + Shown(re, buf[..m'] + left) == Shown(re, old(buf[..m]) + bytes + left)
  {
    hide Shown;
    ghost var s := buf[..m] + bytes;
    Fill(buf, m, bytes);
    var n := m + |bytes|;
    buf[n] := NUL;
    assert buf[..n] == s;
    forall k | 0 <= k < n ensures buf[k] != NUL {
      assert buf[k] == s[k];
    }
    var p;
    out, p := ShowLines(re, buf, n, left);
    m' := n - p;
    ghost var rest := buf[p..n];
    assert rest == s[p..];
    Memmove(buf, p, m');
    assert buf[..m'] == rest;
  }

  /** grep shows the matching lines of its input, up to a line that does not fit the buffer, whatever portions read
      delivers the input in. */
  method Grep(re: string, input: string, wants: seq<nat>) returns (out: string)
    requires NulFree(input)
    ensures out == Show(re, Fitting(Lines(input)))
  {
    hide Matches, Show, Fitting, Lines;
    var buf := new char[BUFSIZE](_ => NUL);
    var m, at, i := 0, 0, 0;
    out := "";
    assert buf[..0] + input[0..] == input;
    while true
      invariant 0 <= m < BUFSIZE && 0 <= at <= |input| && NulFree(buf[..m])
      invariant forall k :: 0 <= k < m ==> buf[..m][k] != '\n'
      invariant out + Shown(re, buf[..m] + input[at..]) == Shown(re, input)
      decreases |input| - at
    {
      var n := Ready(if i < |wants| then wants[i] else BUFSIZE, BUFSIZE - m - 1, |input| - at);
      i := i + 1;
      if n == 0 {
        ShownNone(re, buf[..m] + input[at..], m);
        return;
      }
      assert buf[..m] + input[at..] == buf[..m] + input[at..at + n] + input[at + n..];
      var more;
      more, m := Round(re, buf, m, input[at..at + n], input[at + n..]);
      at := at + n;
      out := out + more;
    }
  }
}
