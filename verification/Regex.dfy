/** The regular expressions of user/grep.c: match, matchhere and matchstar decide membership in a language that is
    defined without them. */
module Regex {
  /** A pattern's elements: a literal or any character, zero or more of one, the end of the text. */
  datatype Item = One(c: char) | Star(c: char) | End

  predicate Accepts(c: char, x: char) { c == '.' || c == x }

  /** How a pattern reads: `*` applies to the character before it, `$` is special only as the last character. */
  function Items(re: string): (r: seq<Item>)
  {
    if re == "" then []
    else if |re| > 1 && re[1] == '*' then [Star(re[0])] + Items(re[2..])
    else if re == "$" then [End]
    else [One(re[0])] + Items(re[1..])
  }

  /** text[i..j] is a word of the item. */
  ghost predicate Word(it: Item, text: string, i: nat, j: nat) {
    && i <= j <= |text|
    && match it
       case One(c) => j == i + 1 && Accepts(c, text[i])
       case Star(c) => forall k :: i <= k < j ==> Accepts(c, text[k])
       case End => i == j == |text|
  }

  /** cuts divides a stretch of the text into words of the items, in order. */
  ghost predicate Divides(items: seq<Item>, text: string, cuts: seq<nat>) {
    && |cuts| == |items| + 1 && cuts[|items|] <= |text|
    && forall l :: 0 <= l < |items| ==> Word(items[l], text, cuts[l], cuts[l + 1])
  }

  /** Some stretch of the text that starts at i is in the language of the items. */
  ghost predicate Here(items: seq<Item>, text: string, i: nat) {
    exists cuts :: Divides(items, text, cuts) && cuts[0] == i
  }

  /** Some substring is in the language of the pattern; after `^`, some prefix. */
  ghost predicate Matches(re: string, text: string) {
    if re != "" && re[0] == '^' then Here(Items(re[1..]), text, 0)
    else exists i: nat :: i <= |text| && Here(Items(re), text, i)
  }

  lemma HereEmpty(text: string, i: nat)
    requires i <= |text|
    ensures Here([], text, i)
  {
    assert Divides([], text, [i]);
  }

  lemma HereFirst(it: Item, rest: seq<Item>, text: string, i: nat, j: nat)
    requires Word(it, text, i, j) && Here(rest, text, j)
    ensures Here([it] + rest, text, i)
  {
    var cuts :| Divides(rest, text, cuts) && cuts[0] == j;
    var items, all := [it] + rest, [i] + cuts;
    forall l | 0 <= l < |items| ensures Word(items[l], text, all[l], all[l + 1]) {
      if l > 0 {
        assert Word(rest[l - 1], text, cuts[l - 1], cuts[l]);
      }
    }
    assert Divides(items, text, all);
  }

  lemma HereSplit(it: Item, rest: seq<Item>, text: string, i: nat) returns (j: nat)
    requires Here([it] + rest, text, i)
    ensures Word(it, text, i, j) && Here(rest, text, j)
  {
    var items := [it] + rest;
    var cuts :| Divides(items, text, cuts) && cuts[0] == i;
    j := cuts[1];
    assert Word(items[0], text, cuts[0], cuts[1]);
    forall l | 0 <= l < |rest| ensures Word(rest[l], text, cuts[1..][l], cuts[1..][l + 1]) {
      assert Word(items[l + 1], text, cuts[l + 1], cuts[l + 2]);
    }
    assert Divides(rest, text, cuts[1..]);
  }

  /** A word of one character and then the rest. */
  lemma HereOne(c: char, rest: seq<Item>, text: string, i: nat)
    requires i <= |text|
    ensures Here([One(c)] + rest, text, i) <==> i < |text| && Accepts(c, text[i]) && Here(rest, text, i + 1)
  {
    if Here([One(c)] + rest, text, i) {
      var j := HereSplit(One(c), rest, text, i);
    }
    if i < |text| && Accepts(c, text[i]) && Here(rest, text, i + 1) {
      HereFirst(One(c), rest, text, i, i + 1);
    }
  }

  lemma HereEnd(text: string, i: nat)
    requires i <= |text|
    ensures Here([End], text, i) <==> i == |text|
  {
    assert [End] + [] == [End];
    if Here([End], text, i) {
      var j := HereSplit(End, [], text, i);
    }
    if i == |text| {
      HereEmpty(text, i);
      HereFirst(End, [], text, i, i);
    }
  }

  /** The rest after some run of accepted characters. */
  lemma HereStar(c: char, rest: seq<Item>, text: string, i: nat)
    requires i <= |text|
    ensures Here([Star(c)] + rest, text, i) <==> exists j: nat :: Word(Star(c), text, i, j) && Here(rest, text, j)
  {
    if Here([Star(c)] + rest, text, i) {
      var j := HereSplit(Star(c), rest, text, i);
    }
    if j: nat :| Word(Star(c), text, i, j) && Here(rest, text, j) {
      HereFirst(Star(c), rest, text, i, j);
    }
  }

  // ----- the code; i is how far the text pointer has moved, *text is NUL at the end -----

  method MatchHere(re: string, text: string, i: nat) returns (r: bool)
    requires i <= |text|
    ensures r <==> Here(Items(re), text, i)
    decreases |re|, 0
  {
    hide Here, Word;
    if re == "" {
      HereEmpty(text, i);
      return true;
    }
    if |re| > 1 && re[1] == '*' {
      r := MatchStar(re[0], re[2..], text, i);
      return;
    }
    if re == "$" {
      HereEnd(text, i);
      return i == |text|;
    }
    HereOne(re[0], Items(re[1..]), text, i);
    if i < |text| && (re[0] == '.' || re[0] == text[i]) {
      r := MatchHere(re[1..], text, i + 1);
      return;
    }
    r := false;
  }

  method MatchStar(c: char, re: string, text: string, i: nat) returns (r: bool)
    requires i <= |text|
    ensures r <==> Here([Star(c)] + Items(re), text, i)
    decreases |re|, 1
  {
    hide Here, Items;
    HereStar(c, Items(re), text, i);
    var k := i;
    while true
      invariant i <= k <= |text| && Word(Star(c), text, i, k)
      invariant forall j: nat :: i <= j < k ==> !Here(Items(re), text, j)
      decreases |text| - k
    {
      r := MatchHere(re, text, k);
      if r {
        return;
      }
      if k == |text| || !(text[k] == c || c == '.') {
        return false;
      }
      k := k + 1;
    }
  }

  /** match is exactly membership in the language of the pattern. */
  method Match(re: string, text: string) returns (r: bool)
    ensures r <==> Matches(re, text)
  {
    hide Here, Items;
    if re != "" && re[0] == '^' {
      r := MatchHere(re[1..], text, 0);
      return;
    }
    var k := 0;
    while true
      invariant 0 <= k <= |text| && forall j: nat :: j < k ==> !Here(Items(re), text, j)
      decreases |text| - k
    {
      r := MatchHere(re, text, k);
      if r || k == |text| {
        return;
      }
      k := k + 1;
    }
  }
}
