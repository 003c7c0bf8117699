/** Values over several lines: strings up to their closing quotes, arrays up to their closing bracket. */
module TomlValues {
  import opened Wrappers
  import opened TomlStrings
  import opened TomlText
  import opened TextLines

  predicate Contains(s: string, t: string) {
    exists i :: 0 <= i <= |s| && StartsWith(s, i, t)
  }

  // ---- Strings ----

  /** The three quotes that open a multi-line string, if one starts here. */
  function Delim(v: string): string {
    if StartsWith(v, 0, "\"\"\"") then "\"\"\"" else if StartsWith(v, 0, "'''") then "'''" else ""
  }

  /** A multi-line string that does not end on the line. */
  predicate LeftOpen(v: string) {
    Delim(v) != "" && !Contains(v[3..], Delim(v))
  }

  /** The lines go on to the first one that holds the closing quotes, and end there. */
  predicate UpTo(delim: string, lines: seq<string>) {
    lines != [] && if |lines| == 1 then Contains(lines[0], delim) else !Contains(lines[0], delim) && UpTo(delim, lines[1..])
  }

  // ---- Arrays ----

  /** Brackets opened and not closed from `i` on, outside quotes. */
  function Brackets(s: string, i: nat, quote: Option<char>): int
    decreases |s| - i
  {
    if i >= |s| then 0
    else if quote.Some? then
      if s[i] == '\\' && quote.value == '\"' then Brackets(s, i + 2, quote)
      else Brackets(s, i + 1, if s[i] == quote.value then None else quote)
    else if IsQuote(s[i]) then Brackets(s, i + 1, Some(s[i]))
    else (if s[i] == '[' then 1 else if s[i] == ']' then -1 else 0) + Brackets(s, i + 1, None)
  }

  function BracketDepth(s: string): int {
    Brackets(s, 0, None)
  }

  /** The loop that counts the brackets left open. */
  method CountBrackets(s: string) returns (depth: int)
    ensures depth == BracketDepth(s)
  {
    depth := 0;
    var i := 0;
    var quote: Option<char> := None;
    while i < |s|
      invariant depth + Brackets(s, i, quote) == BracketDepth(s)
      decreases |s| - i
    {
      var c := s[i];
      if quote.Some? {
        if c == '\\' && quote.value == '\"' {
          i := i + 1;
        } else if c == quote.value {
          quote := None;
        }
      } else if IsQuote(c) {
        quote := Some(c);
      } else if c == '[' {
        depth := depth + 1;
      } else if c == ']' {
        depth := depth - 1;
      }
      i := i + 1;
    }
  }

  /** Brackets and braces opened and not closed, up to the comment. */
  function Opened(s: string, i: nat, quote: Option<char>): int
    decreases |s| - i
  {
    if i >= |s| then 0
    else if quote.Some? then
      if s[i] == '\\' && quote.value == '\"' then Opened(s, i + 2, quote)
      else Opened(s, i + 1, if s[i] == quote.value then None else quote)
    else if IsQuote(s[i]) then Opened(s, i + 1, Some(s[i]))
    else if s[i] == '#' then 0
    else (if s[i] in "[{" then 1 else if s[i] in "]}" then -1 else 0) + Opened(s, i + 1, None)
  }

  function OpenDepth(s: string): int {
    Opened(s, 0, None)
  }

  predicate OpenArray(raw: string) {
    raw != [] && raw[0] == '[' && BracketDepth(raw) > 0
  }

  /** A line of an array: what it holds, its comment left out. */
  predicate ArrayLine(line: string) {
    line != [] && ValueText(line) == line
  }

  /** The array text is open, and the lines close it with the last one. */
  predicate Closes(text: string, lines: seq<string>)
    decreases |lines|
  {
    if lines == [] then !OpenArray(text)
    else OpenArray(text) && ArrayLine(lines[0]) && Closes(text + "\n" + lines[0], lines[1..])
  }

  // ---- Values that end where their text ends ----

  /** A value as it is written: a multi-line string up to its closing quotes, an array whose last line
      closes it, any other value on one line; no comment behind. */
  predicate WholeValue(raw: string) {
    var ls := Lines(raw);
    NoReturn(raw) &&
    if raw == "" then true
    else if LeftOpen(Trim(ls[0])) then ls[0] != [] && !IsSpace(ls[0][0]) && UpTo(Delim(Trim(ls[0])), ls[1..])
    else Complete(ls[0]) && Closes(ls[0], ls[1..])
  }

  /** A value on one line. */
  predicate OneLine(raw: string) {
    Complete(raw) && NoBreak(raw) && !LeftOpen(raw) && !OpenArray(raw)
  }

  lemma OneLineWhole(raw: string)
    requires OneLine(raw)
    ensures WholeValue(raw)
  {
    hide LeftOpen, CommentAt, OpenArray, IsSpace;
    OneLineIs(raw);
    TrimTight(raw);
  }

  // ---- Brackets inside quotes do not count ----

  lemma {:induction false} PlainCountsNone(v: string, i: nat, t: string)
    requires PlainText(t) && i + |t| <= |v| && v[i..i + |t|] == t
    ensures Brackets(v, i, Some('\"')) == Brackets(v, i + |t|, Some('\"'))
    decreases |t|
  {
    if t != [] {
      assert v[i] == t[0];
      assert v[i + 1..i + |t|] == t[1..];
      PlainCountsNone(v, i + 1, t[1..]);
    }
  }

  lemma QuotedCountsNone(v: string, i: nat, t: string)
    requires PlainText(t) && i + |t| + 2 <= |v| && v[i] == '\"' && v[i + 1..i + 1 + |t|] == t && v[i + 1 + |t|] == '\"'
    ensures Brackets(v, i, None) == Brackets(v, i + |t| + 2, None)
  {
    PlainCountsNone(v, i + 1, t);
  }

  lemma NoBracketAt(v: string, i: nat)
    requires i < |v| && !IsQuote(v[i]) && v[i] != '[' && v[i] != ']'
    ensures Brackets(v, i, None) == Brackets(v, i + 1, None)
  {
  }

  // ---- Strings and words are on one line ----

  lemma PlainWordOneLine(raw: string)
    requires Tight(raw) && NoBreak(raw) && forall k :: 0 <= k < |raw| ==> !IsQuote(raw[k]) && raw[k] != '#' && raw[k] != '['
    ensures OneLine(raw)
  {
    hide CommentAt, IsSpace;
    WordComplete(raw);
    if |raw| >= 3 {
      assert raw[0..3][0] == raw[0];
    }
  }

  lemma {:induction false} BodyNoBreak(s: string)
    ensures NoBreak(StrBody(s))
    decreases |s|
  {
    hide ActionLen, EscapeChar;
    if s != [] {
      if ActionLen(s) > 0 {
        var n := ActionLen(s);
        BodyNoBreak(s[n..]);
        assert NoBreak(s[..n]);
      } else {
        BodyNoBreak(s[1..]);
        EscapeNoBreak(s[0]);
      }
    }
  }

  lemma EscapeNoBreak(c: char)
    ensures NoBreak(EscapeChar(c))
  {
  }

  /** A string written by the generator stays on its line. */
  lemma StrOneLine(s: string)
    requires PlainActions(s)
    ensures OneLine(Str(s))
  {
    hide StrBody, PlainActions, CommentAt, Complete;
    StrComplete(s);
    BodyNoBreak(s);
    var raw := Str(s);
    BodyStart(s);
    EmptyBody(s);
    assert raw[0] == '\"' && (|raw| > 2 ==> raw[1] == StrBody(s)[0]);
    NotMultiline(raw, 0);
  }

  // ---- Brackets outside strings, piece by piece ----

  /** Brackets opened less brackets closed among the characters outside strings. */
  function Balance(ps: seq<Piece>): int {
    if ps == [] then 0
    else (if ps[0] == Plain('[') then 1 else if ps[0] == Plain(']') then -1 else 0) + Balance(ps[1..])
  }

  lemma {:induction false} BasicBrackets(v: string, i: nat, body: string)
    requires BasicBody(body) && i + |body| <= |v| && v[i..i + |body|] == body
    ensures Brackets(v, i, Some('\"')) == Brackets(v, i + |body|, Some('\"'))
    decreases |body|
  {
    if body != [] {
      assert v[i] == body[0];
      if body[0] == '\\' {
        assert v[i + 2..i + |body|] == body[2..];
        BasicBrackets(v, i + 2, body[2..]);
      } else {
        assert v[i + 1..i + |body|] == body[1..];
        BasicBrackets(v, i + 1, body[1..]);
      }
    }
  }

  lemma {:induction false} LiteralBrackets(v: string, i: nat, body: string)
    requires '\'' !in body && i + |body| <= |v| && v[i..i + |body|] == body
    ensures Brackets(v, i, Some('\'')) == Brackets(v, i + |body|, Some('\''))
    decreases |body|
  {
    if body != [] {
      assert v[i] == body[0] && body[0] in body;
      assert v[i + 1..i + |body|] == body[1..];
      LiteralBrackets(v, i + 1, body[1..]);
    }
  }

  lemma OpensString(v: string, i: nat, q: char)
    requires i < |v| && v[i] == q && (q == '\"' || q == '\'')
    ensures Brackets(v, i, None) == Brackets(v, i + 1, Some(q))
  {
  }

  lemma ClosesString(v: string, i: nat, q: char)
    requires i < |v| && v[i] == q != '\\'
    ensures Brackets(v, i, Some(q)) == Brackets(v, i + 1, None)
  {
  }

  lemma PlainBracket(v: string, i: nat)
    requires i < |v| && !IsQuote(v[i])
    ensures Brackets(v, i, None) == (if v[i] == '[' then 1 else if v[i] == ']' then -1 else 0) + Brackets(v, i + 1, None)
  {
  }

  lemma StringBrackets(v: string, i: nat, q: char, n: nat)
    requires (q == '\"' || q == '\'') && i + 1 + n < |v| && v[i] == q && v[i + 1 + n] == q
    requires Brackets(v, i + 1, Some(q)) == Brackets(v, i + 1 + n, Some(q))
    ensures Brackets(v, i, None) == Brackets(v, i + 2 + n, None)
  {
    hide Brackets;
    OpensString(v, i, q);
    ClosesString(v, i + 1 + n, q);
  }

  lemma BasicCountsNone(pre: string, body: string, post: string)
    requires BasicBody(body)
    ensures var v := pre + ("\"" + body + "\"") + post;
            Brackets(v, |pre|, None) == Brackets(v, |pre| + 2 + |body|, None)
  {
    hide Brackets;
    QuotedInside(pre, '\"', body, post);
    var v := pre + (['\"'] + body + ['\"']) + post;
    BasicBrackets(v, |pre| + 1, body);
    StringBrackets(v, |pre|, '\"', |body|);
    assert "\"" + body + "\"" == ['\"'] + body + ['\"'];
  }

  lemma LiteralCountsNone(pre: string, body: string, post: string)
    requires '\'' !in body
    ensures var v := pre + ("'" + body + "'") + post;
            Brackets(v, |pre|, None) == Brackets(v, |pre| + 2 + |body|, None)
  {
    hide Brackets;
    QuotedInside(pre, '\'', body, post);
    var v := pre + (['\''] + body + ['\'']) + post;
    LiteralBrackets(v, |pre| + 1, body);
    StringBrackets(v, |pre|, '\'', |body|);
    assert "'" + body + "'" == ['\''] + body + ['\''];
  }

  lemma PieceBrackets(pre: string, p: Piece, post: string)
    requires GoodPiece(p)
    ensures Brackets(pre + PieceText(p) + post, |pre|, None)
         == (if p == Plain('[') then 1 else if p == Plain(']') then -1 else 0)
            + Brackets(pre + PieceText(p) + post, |pre| + |PieceText(p)|, None)
  {
    hide Brackets, BasicBody;
    match p
    case Plain(c) => PlainBracket(pre + [c] + post, |pre|);
    case Basic(body) => BasicCountsNone(pre, body, post);
    case Literal(body) => LiteralCountsNone(pre, body, post);
  }

  lemma {:induction false} PiecesBrackets(pre: string, ps: seq<Piece>)
    requires forall i :: 0 <= i < |ps| ==> GoodPiece(ps[i])
    ensures Brackets(pre + PiecesText(ps), |pre|, None) == Balance(ps)
    decreases ps
  {
    hide Brackets, PieceText, GoodPiece;
    if ps == [] {
      assert pre + PiecesText(ps) == pre;
      NoBrackets(pre);
    } else {
      var p, more := PieceText(ps[0]), PiecesText(ps[1..]);
      PieceBrackets(pre, ps[0], more);
      PiecesBrackets(pre + p, ps[1..]);
      assert pre + PiecesText(ps) == pre + p + more;
    }
  }

  lemma NoBrackets(v: string)
    ensures Brackets(v, |v|, None) == 0
  {
  }

  /** The brackets of a value are those outside its strings. */
  lemma BracketsOutside(ps: seq<Piece>)
    requires forall i :: 0 <= i < |ps| ==> GoodPiece(ps[i])
    ensures BracketDepth(PiecesText(ps)) == Balance(ps)
  {
    hide Brackets, PiecesText, Balance, GoodPiece;
    PiecesBrackets("", ps);
    assert "" + PiecesText(ps) == PiecesText(ps);
  }
}
