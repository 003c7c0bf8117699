/** A text as lines: they end with a line feed, with a carriage return and a line feed, or with a
    carriage return alone. */
module TextLines {
  import opened TomlStrings

  predicate LineBreak(c: char) {
    c in "\n\r\U{2028}\U{2029}"
  }

  /** Where the first line ends. */
  function LineEnd(t: string): (n: nat)
    ensures n <= |t| && (n < |t| ==> t[n] == '\n' || t[n] == '\r')
    ensures forall k :: 0 <= k < n ==> t[k] != '\n' && t[k] != '\r'
  {
    if t == [] || t[0] == '\n' || t[0] == '\r' then 0 else 1 + LineEnd(t[1..])
  }

  /** What follows the line end at `n`. */
  function AfterBreak(t: string, n: nat): (rest: string)
    requires n < |t|
    ensures |rest| < |t|
  {
    if t[n] == '\r' && n + 1 < |t| && t[n + 1] == '\n' then t[n + 2..] else t[n + 1..]
  }

  function Lines(t: string): (ls: seq<string>)
    ensures ls != []
    decreases |t|
  {
    var n := LineEnd(t);
    if n == |t| then [t] else [t[..n]] + Lines(AfterBreak(t, n))
  }

  /** Lines put together as a text. */
  function JoinLines(ls: seq<string>): string {
    if ls == [] then [] else if |ls| == 1 then ls[0] else ls[0] + "\n" + JoinLines(ls[1..])
  }

  /** The lines of each text in turn. */
  function LinesOf(texts: seq<string>): seq<string> {
    if texts == [] then [] else Lines(texts[0]) + LinesOf(texts[1..])
  }

  predicate NoBreak(t: string) {
    forall k :: 0 <= k < |t| ==> t[k] != '\n' && t[k] != '\r'
  }

  predicate NoReturn(t: string) {
    forall k :: 0 <= k < |t| ==> t[k] != '\r'
  }

  lemma OneLineIs(t: string)
    requires NoBreak(t)
    ensures Lines(t) == [t]
  {
  }

  // The first line of two texts joined by a line feed.
  lemma {:induction false} LineEndApart(a: string, b: string)
    ensures LineEnd(a + "\n" + b) == LineEnd(a)
  {
    var t := a + "\n" + b;
    if a == [] {
      assert t[0] == '\n';
    } else {
      assert t[0] == a[0] && t[1..] == a[1..] + "\n" + b;
      LineEndApart(a[1..], b);
    }
  }

  lemma LastLine(t: string)
    requires LineEnd(t) == |t|
    ensures Lines(t) == [t]
  {
    hide LineEnd, AfterBreak;
  }

  lemma FeedEnds(t: string)
    requires LineEnd(t) < |t| && t[LineEnd(t)] == '\n'
    ensures Lines(t) == [t[..LineEnd(t)]] + Lines(t[LineEnd(t) + 1..])
  {
    hide LineEnd;
  }

  lemma LinesUnfold(t: string)
    ensures var n := LineEnd(t); Lines(t) == if n == |t| then [t] else [t[..n]] + Lines(AfterBreak(t, n))
  {
    hide LineEnd, AfterBreak;
  }

  // The lines of a text, its first one apart.
  lemma LinesFirst(t: string)
    requires NoReturn(t)
    ensures var n := LineEnd(t); Lines(t) == if n == |t| then [t] else [t[..n]] + Lines(t[n + 1..])
  {
    hide LineEnd, Lines, AfterBreak;
    if LineEnd(t) == |t| {
      LastLine(t);
    } else {
      FeedEnds(t);
    }
  }

  /** Two texts joined by a line feed have the lines of both. */
  lemma {:induction false} LinesApart(a: string, b: string)
    requires NoReturn(a)
    ensures Lines(a + "\n" + b) == Lines(a) + Lines(b)
    decreases |a|
  {
    hide LineEnd, Lines;
    var t, n := a + "\n" + b, LineEnd(a);
    LinesFirst(a);
    JoinedFirst(a, b);
    if n < |a| {
      var rest := a[n + 1..];
      LinesApart(rest, b);
      assert [a[..n]] + (Lines(rest) + Lines(b)) == [a[..n]] + Lines(rest) + Lines(b);
    }
  }

  lemma JoinedFirst(a: string, b: string)
    requires NoReturn(a)
    ensures var t, n := a + "\n" + b, LineEnd(a);
            Lines(t) == if n == |a| then [a] + Lines(b) else [a[..n]] + Lines(a[n + 1..] + "\n" + b)
  {
    hide LineEnd, Lines, AfterBreak;
    LineEndApart(a, b);
    JoinedCut(a, b, LineEnd(a));
    FeedEnds(a + "\n" + b);
  }

  lemma JoinedCut(a: string, b: string, n: nat)
    requires n <= |a| && (n < |a| ==> a[n] == '\n')
    ensures var t := a + "\n" + b;
            && n < |t| && t[n] == '\n' && t[..n] == a[..n]
            && t[n + 1..] == (if n == |a| then b else a[n + 1..] + "\n" + b) && a[..|a|] == a
  {
    var t := a + "\n" + b;
    if n == |a| {
      assert t[n + 1..] == b;
    } else {
      assert t[n + 1..] == a[n + 1..] + "\n" + b;
    }
  }

  lemma {:induction false} LinesJoined(texts: seq<string>)
    requires texts != [] && forall i :: 0 <= i < |texts| ==> NoReturn(texts[i])
    ensures Lines(JoinLines(texts)) == LinesOf(texts)
  {
    hide Lines;
    var x, rest := texts[0], texts[1..];
    if rest == [] {
      assert LinesOf(rest) == [] && Lines(x) + [] == Lines(x);
    } else {
      LinesApart(x, JoinLines(rest));
      LinesJoined(rest);
    }
  }

  lemma {:induction false} LinesOfApart(a: seq<string>, b: seq<string>)
    ensures LinesOf(a + b) == LinesOf(a) + LinesOf(b)
  {
    hide Lines;
    if a == [] {
      assert a + b == b;
    } else {
      assert (a + b)[0] == a[0] && (a + b)[1..] == a[1..] + b;
      LinesOfApart(a[1..], b);
      assert Lines(a[0]) + (LinesOf(a[1..]) + LinesOf(b)) == Lines(a[0]) + LinesOf(a[1..]) + LinesOf(b);
    }
  }

  lemma {:induction false} NoReturnJoined(texts: seq<string>)
    requires forall i :: 0 <= i < |texts| ==> NoReturn(texts[i])
    ensures NoReturn(JoinLines(texts))
  {
    if |texts| > 1 {
      NoReturnJoined(texts[1..]);
    }
  }

  /** Putting the lines of a text together again, when its line ends are line feeds. */
  lemma {:induction false} LinesBack(t: string)
    requires NoReturn(t)
    ensures JoinLines(Lines(t)) == t
    decreases |t|
  {
    hide LineEnd, Lines;
    var n := LineEnd(t);
    LinesFirst(t);
    if n < |t| {
      var rest := t[n + 1..];
      LinesBack(rest);
      assert ([t[..n]] + Lines(rest))[1..] == Lines(rest);
      assert t == t[..n] + "\n" + rest;
    }
  }

  /** A carriage return alone ends a line as well. */
  lemma LoneReturn(a: string, b: string)
    requires NoBreak(a) && (b == "" || b[0] != '\n')
    ensures Lines(a + "\r" + b) == [a] + Lines(b)
  {
    hide LineEnd, Lines;
    var t := a + "\r" + b;
    assert t == a + ("\r" + b);
    EndsAt(a, "\r" + b);
    LinesUnfold(t);
    assert t[..|a|] == a && t[|a|] == '\r' && t[|a| + 1..] == b;
    assert |a| + 1 < |t| ==> t[|a| + 1] == b[0];
  }

  // ---- Blocks in the form of an array ----

  function SkipQuote(s: string, i: nat): (n: nat)
    requires i <= |s|
    ensures i <= n <= |s|
  {
    if i < |s| && (s[i] == '\"' || s[i] == '\'') then i + 1 else i
  }

  /** The line starts an array of tunnels or visitors: `proxies = [`. */
  predicate OpensArray(line: string) {
    var i := SkipQuote(line, SkipBlanks(line, 0));
    (StartsWith(line, i, "proxies") && ArrayFollows(line, i + 7)) || (StartsWith(line, i, "visitors") && ArrayFollows(line, i + 8))
  }

  predicate ArrayFollows(line: string, i: nat)
    requires i <= |line|
  {
    var e := SkipBlanks(line, SkipQuote(line, i));
    e < |line| && line[e] == '=' && StartsWith(line, SkipBlanks(line, e + 1), "[")
  }

  function BreakAt(t: string): (n: nat)
    ensures n <= |t| && (n < |t| ==> LineBreak(t[n])) && forall k :: 0 <= k < n ==> !LineBreak(t[k])
  {
    if t == [] || LineBreak(t[0]) then 0 else 1 + BreakAt(t[1..])
  }

  /** Some line of the text starts such an array: the text is converted before it is read. */
  predicate HasArray(t: string)
    decreases |t|
  {
    var n := BreakAt(t);
    OpensArray(t[..n]) || (n < |t| && HasArray(t[n + 1..]))
  }

  lemma {:induction false} BreakApart(a: string, b: string)
    ensures BreakAt(a + "\n" + b) == BreakAt(a)
  {
    var t := a + "\n" + b;
    if a == [] {
      assert t[0] == '\n';
    } else {
      assert t[0] == a[0] && t[1..] == a[1..] + "\n" + b;
      BreakApart(a[1..], b);
    }
  }

  lemma {:induction false} HasArrayApart(a: string, b: string)
    ensures HasArray(a + "\n" + b) <==> HasArray(a) || HasArray(b)
    decreases |a|
  {
    hide BreakAt, OpensArray, LineBreak;
    var t, n := a + "\n" + b, BreakAt(a);
    BreakApart(a, b);
    if n == |a| {
      assert t[..n] == a[..n] && t[n + 1..] == b;
    } else {
      assert t[..n] == a[..n] && t[n + 1..] == a[n + 1..] + "\n" + b;
      HasArrayApart(a[n + 1..], b);
    }
  }

  lemma EmptyHasNone()
    ensures !HasArray("")
  {
  }

  // ---- Carriage returns in front of line feeds ----

  function Crlf(t: string): string {
    if t == [] then [] else (if t[0] == '\n' then "\r\n" else [t[0]]) + Crlf(t[1..])
  }

  lemma {:induction false} CrlfApart(a: string, b: string)
    ensures Crlf(a + b) == Crlf(a) + Crlf(b)
  {
    if a == [] {
      assert a + b == b;
    } else {
      assert (a + b)[0] == a[0] && (a + b)[1..] == a[1..] + b;
      CrlfApart(a[1..], b);
    }
  }

  lemma {:induction false} CrlfKeeps(a: string)
    requires forall k :: 0 <= k < |a| ==> a[k] != '\n'
    ensures Crlf(a) == a
  {
    if a != [] {
      CrlfKeeps(a[1..]);
    }
  }

  lemma CrlfParts(a: string, c: char, rest: string)
    requires forall k :: 0 <= k < |a| ==> a[k] != '\n'
    ensures Crlf(a + [c] + rest) == a + (if c == '\n' then "\r\n" else [c]) + Crlf(rest)
  {
    hide Crlf;
    CrlfApart(a + [c], rest);
    CrlfApart(a, [c]);
    CrlfKeeps(a);
    CrlfOne(c);
  }

  lemma CutAt(t: string, n: nat)
    requires n < |t|
    ensures t == t[..n] + [t[n]] + t[n + 1..]
  {
  }

  // A text written that way, its first line apart.
  lemma CrlfFirst(t: string, n: nat)
    requires n < |t| && forall k :: 0 <= k < n ==> t[k] != '\n'
    ensures Crlf(t) == t[..n] + (if t[n] == '\n' then "\r\n" else [t[n]]) + Crlf(t[n + 1..])
  {
    hide Crlf;
    CutAt(t, n);
    CrlfParts(t[..n], t[n], t[n + 1..]);
  }

  lemma CrlfOne(c: char)
    ensures Crlf([c]) == if c == '\n' then "\r\n" else [c]
  {
    assert [c][1..] == [];
  }

  lemma {:induction false} EndsAt(a: string, rest: string)
    requires NoBreak(a) && rest != [] && (rest[0] == '\n' || rest[0] == '\r')
    ensures LineEnd(a + rest) == |a|
  {
    if a == [] {
      assert a + rest == rest;
    } else {
      assert (a + rest)[0] == a[0] && (a + rest)[1..] == a[1..] + rest;
      EndsAt(a[1..], rest);
    }
  }

  /** The lines of a text do not depend on the carriage returns in front of its line feeds. */
  lemma {:induction false} CrlfLines(t: string)
    requires NoReturn(t)
    ensures Lines(Crlf(t)) == Lines(t)
    decreases |t|
  {
    hide LineEnd, Lines, AfterBreak, Crlf;
    var n := LineEnd(t);
    LinesFirst(t);
    if n == |t| {
      CrlfKeeps(t);
    } else {
      var rest := t[n + 1..];
      CrlfLines(rest);
      CrlfFirst(t, n);
      ReturnAndFeed(t[..n], Crlf(rest));
    }
  }

  lemma ReturnAndFeed(a: string, rest: string)
    requires NoBreak(a)
    ensures Lines(a + "\r\n" + rest) == [a] + Lines(rest)
  {
    hide LineEnd, Lines, AfterBreak;
    var t := a + "\r\n" + rest;
    assert t == a + ("\r\n" + rest);
    EndsAt(a, "\r\n" + rest);
    LinesUnfold(t);
    assert t[..|a|] == a;
    BehindBoth(a, rest);
  }

  lemma BehindBoth(a: string, rest: string)
    ensures AfterBreak(a + "\r\n" + rest, |a|) == rest
  {
    var t := a + "\r\n" + rest;
    assert t[|a|] == '\r' && t[|a| + 1] == '\n' && t[|a| + 2..] == rest;
  }

  lemma {:induction false} BreaksAt(a: string, rest: string)
    requires (forall k :: 0 <= k < |a| ==> !LineBreak(a[k])) && rest != [] && LineBreak(rest[0])
    ensures BreakAt(a + rest) == |a|
  {
    if a == [] {
      assert a + rest == rest;
    } else {
      assert (a + rest)[0] == a[0] && (a + rest)[1..] == a[1..] + rest;
      BreaksAt(a[1..], rest);
    }
  }

  lemma ArrayBehind(a: string, c: char, rest: string)
    requires (forall k :: 0 <= k < |a| ==> !LineBreak(a[k])) && LineBreak(c)
    ensures HasArray(a + [c] + rest) <==> OpensArray(a) || HasArray(rest)
  {
    hide OpensArray, BreakAt, LineBreak;
    var t := a + [c] + rest;
    assert t == a + ([c] + rest);
    BreaksAt(a, [c] + rest);
    assert t[..|a|] == a && t[|a| + 1..] == rest;
  }

  /** Nor do the arrays of blocks in it. */
  lemma {:induction false} CrlfArrays(t: string)
    requires NoReturn(t)
    ensures HasArray(Crlf(t)) <==> HasArray(t)
    decreases |t|
  {
    hide OpensArray, BreakAt, HasArray, Crlf, LineBreak;
    var n := BreakAt(t);
    FeedIsBreak();
    if n == |t| {
      CrlfKeeps(t);
    } else {
      var a, rest := t[..n], t[n + 1..];
      CrlfArrays(rest);
      CrlfFirst(t, n);
      assert t == a + [t[n]] + rest;
      ArrayBehind(a, t[n], rest);
      if t[n] == '\n' {
        ArrayBehind(a, '\r', "\n" + Crlf(rest));
        ArrayBehind("", '\n', Crlf(rest));
        assert "" + ['\n'] + Crlf(rest) == "\n" + Crlf(rest);
        assert a + ['\r'] + ("\n" + Crlf(rest)) == a + "\r\n" + Crlf(rest);
        EmptyOpensNone();
      } else {
        ArrayBehind(a, t[n], Crlf(rest));
      }
    }
  }

  lemma FeedIsBreak()
    ensures LineBreak('\n') && LineBreak('\r')
  {
  }

  lemma EmptyOpensNone()
    ensures !OpensArray("")
  {
  }
}
