/** Word lists: one text, every word ended by a newline; and mnemonics as text. */
module WordList {

  /** The lines of a text; what follows the last newline is not a line. */
  function LinesFrom(line: string, s: string): seq<string>
    decreases s
  {
    if s == [] then []
    else if s[0] == '\n' then [line] + LinesFrom([], s[1..])
    else LinesFrom(line + [s[0]], s[1..])
  }

  function Lines(s: string): seq<string> {
    LinesFrom([], s)
  }

  /** Lines, each with its newline. */
  function Unlines(ls: seq<string>): string {
    if ls == [] then "" else ls[0] + "\n" + Unlines(ls[1..])
  }

  lemma {:induction false} LinesFromAre(line: string, s: string) returns (tail: string)
    requires '\n' !in line
    ensures line + s == Unlines(LinesFrom(line, s)) + tail && '\n' !in tail
    ensures forall l <- LinesFrom(line, s) :: '\n' !in l
    decreases s
  {
    if s == [] {
      tail := line;
    } else if s[0] == '\n' {
      tail := LinesFromAre([], s[1..]);
      var rest := LinesFrom([], s[1..]);
      assert ([line] + rest)[1..] == rest;
      assert s == "\n" + s[1..];
      assert line + s == line + "\n" + (Unlines(rest) + tail);
    } else {
      tail := LinesFromAre(line + [s[0]], s[1..]);
      assert line + s == line + [s[0]] + s[1..];
    }
  }

  /** A text is its lines, each with its newline, and a rest; neither the lines nor the rest have a newline in them. */
  lemma {:induction false} LinesAre(s: string) returns (tail: string)
    ensures s == Unlines(Lines(s)) + tail && '\n' !in tail
    ensures forall l <- Lines(s) :: '\n' !in l
  {
    tail := LinesFromAre([], s);
    assert [] + s == s;
  }

  lemma {:induction false} LinesNext(done: seq<string>, line: string, s: string, pt: nat)
    requires pt < |s|
    ensures done + LinesFrom(line, s[pt..]) ==
            if s[pt] == '\n' then done + [line] + LinesFrom([], s[pt + 1..])
            else done + LinesFrom(line + [s[pt]], s[pt + 1..])
  {
    assert s[pt..][1..] == s[pt + 1..];
  }

  /** `GetWord`: the word at a place of the list. An empty list is not looked into for a later word. */
  method GetWord(o: nat, pwl: string) returns (ok: bool, sWord: string)
    requires pwl != [] || o == 0
    ensures ok <==> o < |Lines(pwl)|
    ensures ok ==> sWord == Lines(pwl)[o]
  {
    hide LinesFrom;
    ghost var done: seq<string>, line: string := [], [];
    var left, pt := o, 0;
    assert pwl[0..] == pwl;
    while left > 0
      invariant 0 <= pt <= |pwl| && (left > 0 ==> pt < |pwl|) && 0 <= left <= o && |done| == o - left && (left == 0 ==> line == [])
      invariant Lines(pwl) == done + LinesFrom(line, pwl[pt..])
      decreases |pwl| - pt
    {
      LinesNext(done, line, pwl, pt);
      if pwl[pt] == '\n' {
        left := left - 1;
        done, line := done + [line], [];
      } else {
        line := line + [pwl[pt]];
      }
      pt := pt + 1;
      if pt >= |pwl| {
        NoMoreLines(line, pwl[pt..]);
        return false, "";
      }
    }
    sWord := "";
    while pt < |pwl|
      invariant 0 <= pt <= |pwl| && |done| == o && Lines(pwl) == done + LinesFrom(sWord, pwl[pt..])
    {
      LinesNext(done, sWord, pwl, pt);
      if pwl[pt] == '\n' {
        return true, sWord;
      }
      sWord := sWord + [pwl[pt]];
      pt := pt + 1;
    }
    NoMoreLines(sWord, pwl[pt..]);
    ok := false;
  }

  lemma {:induction false} NoMoreLines(line: string, s: string)
    requires s == []
    ensures LinesFrom(line, s) == []
  {
  }

  /** What the flag of the search says of the line so far. */
  predicate Begins(line: string, p: string) {
    |line| <= |p| && p[..|line|] == line
  }

  lemma {:induction false} BeginsNext(line: string, p: string, ch: char)
    ensures Begins(line + [ch], p) <==> Begins(line, p) && |line| < |p| && p[|line|] == ch
    ensures Begins(line, p) && |line| == |p| <==> line == p
  {
    if |line| < |p| {
      assert p[..|line| + 1] == p[..|line|] + [p[|line|]];
    }
  }

  /** `GetWordOffset`: the first place of a word in the list. */
  method GetWordOffset(p: string, pwl: string) returns (ok: bool, o: nat)
    ensures ok <==> p in Lines(pwl)
    ensures ok ==> o < |Lines(pwl)| && Lines(pwl)[o] == p && forall j :: 0 <= j < o ==> Lines(pwl)[j] != p
  {
    hide LinesFrom, Begins;
    ghost var done: seq<string>, line: string := [], [];
    var pt, i, c, f := 0, 0, 0, true;
    assert pwl[0..] == pwl;
    BeginsEmpty(p);
    while pt < |pwl|
      invariant 0 <= pt <= |pwl| && i == |done| && c == |line| && f == Begins(line, p)
      invariant Lines(pwl) == done + LinesFrom(line, pwl[pt..])
      invariant p !in done
    {
      LinesNext(done, line, pwl, pt);
      BeginsNext(line, p, pwl[pt]);
      if pwl[pt] == '\n' {
        if f && c == |p| {
          assert Lines(pwl)[i] == p;
          return true, i;
        }
        i, c, f := i + 1, 0, true;
        done, line := done + [line], [];
        BeginsEmpty(p);
      } else {
        if c >= |p| {
          f := false;
        } else if f && p[c] != pwl[pt] {
          f := false;
        }
        c := c + 1;
        line := line + [pwl[pt]];
      }
      pt := pt + 1;
    }
    NoMoreLines(line, pwl[pt..]);
    ok, o := false, 0;
  }

  lemma {:induction false} BeginsEmpty(p: string)
    ensures Begins([], p)
  {
  }

  //////////////////////////////////////////////////////////////////////////////
  // Text
  //////////////////////////////////////////////////////////////////////////////

  /** A word is added to the text, after a space unless it is the first. */
  function AppendWord(s: string, word: string): string {
    (if s == "" then s else s + " ") + word
  }

  function Join(ws: seq<string>): string {
    if ws == [] then "" else AppendWord(Join(ws[..|ws| - 1]), ws[|ws| - 1])
  }

  /** `strtok` with a space. */
  function TokensFrom(token: string, s: string): seq<string>
    decreases s
  {
    if s == [] then (if token == [] then [] else [token])
    else if s[0] == ' ' then (if token == [] then [] else [token]) + TokensFrom([], s[1..])
    else TokensFrom(token + [s[0]], s[1..])
  }

  function Tokens(s: string): seq<string> {
    TokensFrom([], s)
  }

  predicate IsToken(word: string) {
    word != [] && ' ' !in word
  }

  /** Every word has at least two characters. */
  ghost predicate LongWords(ws: seq<string>) {
    forall i :: 0 <= i < |ws| ==> |ws[i]| >= 2
  }

  lemma {:induction false} FewTokens(token: string, s: string)
    requires LongWords(TokensFrom(token, s))
    ensures 3 * |TokensFrom(token, s)| <= |token| + |s| + 1
    decreases s
  {
    var ts := TokensFrom(token, s);
    if s == [] {
      assert token != [] ==> ts[0] == token;
    } else if s[0] == ' ' {
      var head, rest := if token == [] then [] else [token], TokensFrom([], s[1..]);
      assert ts == head + rest && ts[|head|..] == rest;
      assert token != [] ==> ts[0] == token;
      FewTokens([], s[1..]);
    } else {
      FewTokens(token + [s[0]], s[1..]);
    }
  }

  /** A text of words of at least two characters has at most one word for every three characters. */
  lemma {:induction false} FewWords(s: string)
    requires LongWords(Tokens(s))
    ensures 3 * |Tokens(s)| <= |s| + 1
  {
    FewTokens([], s);
  }

  lemma {:induction false} TokensFromSplit(token: string, a: string, b: string)
    ensures TokensFrom(token, a + " " + b) == TokensFrom(token, a) + Tokens(b)
    decreases a
  {
    var s := a + " " + b;
    if a == [] {
      assert s[0] == ' ' && s[1..] == b;
    } else {
      assert s[0] == a[0] && s[1..] == a[1..] + " " + b;
      TokensFromSplit(if a[0] == ' ' then [] else token + [a[0]], a[1..], b);
    }
  }

  /** Words are what spaces separate: a text comes apart at every space, one without spaces is one word, and spaces alone are
      none. */
  lemma {:induction false} TokensAre(a: string, b: string)
    ensures Tokens(a + " " + b) == Tokens(a) + Tokens(b)
    ensures ' ' !in a ==> Tokens(a) == if a == "" then [] else [a]
  {
    TokensFromSplit([], a, b);
    if ' ' !in a && a != "" {
      assert [] + a == a;
      LastToken([], a);
    }
  }

  lemma {:induction false} LastToken(token: string, word: string)
    requires ' ' !in word && token + word != []
    ensures TokensFrom(token, word) == [token + word]
    decreases word
  {
    if word != [] {
      assert token + [word[0]] + word[1..] == token + word;
      LastToken(token + [word[0]], word[1..]);
    } else {
      assert token + word == token;
    }
  }

  lemma {:induction false} TokensAfter(token: string, s: string, word: string)
    requires IsToken(word)
    ensures TokensFrom(token, s + " " + word) == TokensFrom(token, s) + [word]
    decreases s
  {
    var all := s + " " + word;
    if s == [] {
      assert all[1..] == word;
      LastToken([], word);
      assert [] + word == word;
    } else {
      assert all[1..] == s[1..] + " " + word;
      TokensAfter(if s[0] == ' ' then [] else token + [s[0]], s[1..], word);
    }
  }

  /** A text of words is taken apart into the same words. */
  lemma {:induction false} TokensOfJoin(ws: seq<string>)
    requires forall i :: 0 <= i < |ws| ==> IsToken(ws[i])
    ensures Tokens(Join(ws)) == ws
  {
    if ws != [] {
      var n := |ws| - 1;
      TokensOfJoin(ws[..n]);
      var s := Join(ws[..n]);
      assert IsToken(ws[n]);
      if s == "" {
        assert Tokens("") == [];
        LastToken([], ws[n]);
        assert [] + ws[n] == ws[n] && s + ws[n] == ws[n];
      } else {
        TokensAfter([], s, ws[n]);
      }
    }
  }
}
