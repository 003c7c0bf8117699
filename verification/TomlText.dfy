/** Reading one "key = value" line: where the key ends and where a comment starts. */
module TomlText {
  import opened Wrappers
  import opened TomlStrings

  // ---- Spaces around ----

  function TrimLeft(s: string): string {
    if s != [] && IsSpace(s[0]) then TrimLeft(s[1..]) else s
  }

  function TrimRight(s: string): string {
    if s != [] && IsSpace(s[|s| - 1]) then TrimRight(s[..|s| - 1]) else s
  }

  function Trim(s: string): string {
    TrimRight(TrimLeft(s))
  }

  /** No space at either end. */
  predicate Tight(s: string) {
    s != [] && !IsSpace(s[0]) && !IsSpace(s[|s| - 1])
  }

  lemma TrimTight(s: string)
    requires Tight(s)
    ensures Trim(s) == s && Trim(" " + s) == s && Trim(s + " ") == s
  {
    hide IsSpace;
    SpaceIsSpace();
    assert (" " + s)[1..] == s && TrimLeft(" " + s) == TrimLeft(s) == s;
    assert (s + " ")[..|s|] == s && TrimRight(s + " ") == TrimRight(s) == s;
  }

  lemma SpaceIsSpace()
    ensures IsSpace(' ') && Trim([]) == []
  {
  }

  // ---- Quotes and comments ----

  predicate IsQuote(c: char) {
    c == '\"' || c == '\''
  }

  /** Index behind the multi-line string at the start of `raw`. */
  function MultilineClose(raw: string): (n: Option<nat>)
    requires |raw| >= 3
    ensures n.Some? ==> n.value >= 6
  {
    match MultilineEnd(raw[3..], raw[..3], 0)
    case None => None
    case Some(end) => Some(end + 6)
  }

  /** Start of the end comment of a value, its length without one. `quote`: the quote open at `i`. */
  function CommentAt(v: string, i: nat, quote: Option<char>): (n: nat)
    decreases |v| - i
  {
    if i >= |v| then |v|
    else if quote.Some? then
      if v[i] == '\\' && quote.value == '\"' then CommentAt(v, i + 2, quote)
      else CommentAt(v, i + 1, if v[i] == quote.value then None else quote)
    else if StartsWith(v, i, "\"\"\"") || StartsWith(v, i, "'''") then
      match MultilineClose(v[i..])
      case None => |v|
      case Some(e) => CommentAt(v, i + e, None)
    else if IsQuote(v[i]) then CommentAt(v, i + 1, Some(v[i]))
    else if v[i] == '#' then i
    else CommentAt(v, i + 1, None)
  }

  /** Value without its end comment. */
  function ValueText(v: string): string {
    if CommentAt(v, 0, None) <= |v| then Trim(v[..CommentAt(v, 0, None)]) else Trim(v)
  }

  /** Position of the `=` of a "key = value" line, outside quotes. */
  function KeyEnd(line: string, i: nat, quote: Option<char>): (n: Option<nat>)
    ensures n.Some? ==> i <= n.value < |line|
    decreases |line| - i
  {
    if i >= |line| then None
    else if quote.Some? then
      if line[i] == '\\' && quote.value == '\"' then KeyEnd(line, i + 2, quote)
      else KeyEnd(line, i + 1, if line[i] == quote.value then None else quote)
    else if IsQuote(line[i]) then KeyEnd(line, i + 1, Some(line[i]))
    else if line[i] == '#' then None
    else if line[i] == '=' then Some(i)
    else KeyEnd(line, i + 1, None)
  }

  /** The loop that cuts the end comment off a value: the value, and the comment. */
  method SplitComment(value: string) returns (text: string, note: string)
    ensures text == ValueText(value)
    ensures note == if CommentAt(value, 0, None) <= |value| then Trim(value[CommentAt(value, 0, None)..]) else ""
  {
    hide Trim;
    var i := 0;
    var quote: Option<char> := None;
    while i < |value|
      invariant CommentAt(value, i, quote) == CommentAt(value, 0, None)
      decreases |value| - i
    {
      var c := value[i];
      if quote.Some? {
        if c == '\\' && quote.value == '\"' {
          i := i + 1;
        } else if c == quote.value {
          quote := None;
        }
      } else if StartsWith(value, i, "\"\"\"") || StartsWith(value, i, "'''") {
        var end := MultilineClose(value[i..]);
        if end.None? {
          NoCommentIn(value);
          return Trim(value), "";
        }
        i := i + end.value - 1;
      } else if IsQuote(c) {
        quote := Some(c);
      } else if c == '#' {
        return Trim(value[..i]), Trim(value[i..]);
      }
      i := i + 1;
    }
    NoCommentIn(value);
    text, note := Trim(value), "";
  }

  lemma NoCommentIn(value: string)
    ensures value[..|value|] == value && Trim(value[|value|..]) == ""
  {
    assert value[|value|..] == [];
    SpaceIsSpace();
  }

  /** The loop that looks for the `=` of a line. */
  method FindKeyEnd(line: string) returns (eq: Option<nat>)
    ensures eq == KeyEnd(line, 0, None)
  {
    var i := 0;
    var quote: Option<char> := None;
    while i < |line|
      invariant KeyEnd(line, i, quote) == KeyEnd(line, 0, None)
      decreases |line| - i
    {
      var c := line[i];
      if quote.Some? {
        if c == '\\' && quote.value == '\"' {
          i := i + 1;
        } else if c == quote.value {
          quote := None;
        }
      } else if IsQuote(c) {
        quote := Some(c);
      } else if c == '#' {
        return None;
      } else if c == '=' {
        return Some(i);
      }
      i := i + 1;
    }
    eq := None;
  }

  /** A key as the generator writes it: letters, digits, `.`, `-` and `_`. */
  predicate BareChar(c: char) {
    'a' <= c <= 'z' || 'A' <= c <= 'Z' || '0' <= c <= '9' || c in ".-_"
  }

  predicate BareKey(k: string) {
    k != [] && forall i :: 0 <= i < |k| ==> BareChar(k[i])
  }

  /** Key without its quotes. */
  function Unquoted(k: string): string {
    if |k| >= 3 && IsQuote(k[0]) && k[|k| - 1] == k[0] && BareKey(k[1..|k| - 1]) then k[1..|k| - 1] else k
  }

  datatype Assign = Assign(key: string, raw: string)

  function AssignText(a: Assign): string {
    a.key + " = " + a.raw
  }

  /** A value that ends with its line: no comment in it, no space around it. */
  predicate Complete(raw: string) {
    Tight(raw) && CommentAt(" " + raw, 0, None) == |raw| + 1
  }

  // ---- A line written is read again ----

  lemma {:induction false} KeyEndFound(k: string, rest: string, i: nat)
    requires BareKey(k) && i <= |k|
    ensures KeyEnd(k + " =" + rest, i, None) == Some(|k| + 1)
    decreases |k| - i
  {
    var line := k + " =" + rest;
    if i < |k| {
      assert line[i] == k[i] && BareChar(k[i]);
      KeyEndFound(k, rest, i + 1);
    } else {
      assert line[i] == ' ' && line[i + 1] == '=';
      assert KeyEnd(line, i + 1, None) == Some(i + 1);
    }
  }

  lemma BareIsTight(k: string)
    requires BareKey(k)
    ensures Tight(k) && Unquoted(k) == k
  {
    assert BareChar(k[0]) && BareChar(k[|k| - 1]);
    BareNotSpace(k[0]);
    BareNotSpace(k[|k| - 1]);
  }

  lemma BareNotSpace(c: char)
    requires BareChar(c)
    ensures !IsSpace(c) && !IsQuote(c)
  {
  }

  lemma LineParts(k: string, raw: string)
    ensures k + " = " + raw == k + " =" + (" " + raw)
    ensures (k + " = " + raw)[..|k| + 1] == k + " "
    ensures (k + " = " + raw)[|k| + 2..] == " " + raw
    ensures (" " + raw)[..|raw| + 1] == " " + raw
  {
  }

  // ---- Strings are complete values ----

  /** Template actions without quote or backslash. */
  predicate PlainActions(s: string)
    decreases |s|
  {
    s == [] ||
    if ActionLen(s) > 0 then PlainText(s[..ActionLen(s)]) && PlainActions(s[ActionLen(s)..])
    else PlainActions(s[1..])
  }

  predicate PlainText(t: string) {
    forall i :: 0 <= i < |t| ==> t[i] != '\"' && t[i] != '\\'
  }

  lemma {:induction false} PlainActionsRoundTrip(s: string)
    requires PlainActions(s)
    ensures ActionsWithoutBackslash(s)
    decreases |s|
  {
    hide ActionLen;
    if s != [] {
      if ActionLen(s) > 0 {
        PlainActionsRoundTrip(s[ActionLen(s)..]);
      } else {
        PlainActionsRoundTrip(s[1..]);
      }
    }
  }

  /** A string with plain actions, written and read, is the same. */
  lemma UnquoteStrPlain(s: string)
    requires PlainActions(s)
    ensures Unquote(Str(s)) == s
  {
    hide PlainActions, ActionsWithoutBackslash, ActionsHoldNoEscape, Unquote, Str;
    PlainActionsRoundTrip(s);
    PlainActionsHoldNoEscape(s);
    StringRoundTrip(s);
  }

  // Inside double quotes, plain text goes by.
  lemma {:induction false} PlainGoesBy(v: string, i: nat, t: string)
    requires PlainText(t) && i + |t| <= |v| && v[i..i + |t|] == t
    ensures CommentAt(v, i, Some('\"')) == CommentAt(v, i + |t|, Some('\"'))
    decreases |t|
  {
    if t != [] {
      assert v[i] == t[0];
      assert v[i + 1..i + |t|] == t[1..];
      PlainGoesBy(v, i + 1, t[1..]);
    }
  }

  lemma EscapeGoesBy(v: string, i: nat, c: char)
    requires var e := EscapeChar(c); i + |e| <= |v| && v[i..i + |e|] == e
    ensures CommentAt(v, i, Some('\"')) == CommentAt(v, i + |EscapeChar(c)|, Some('\"'))
  {
    var e := EscapeChar(c);
    EscapeShape(c);
    if |e| == 1 {
      PlainGoesBy(v, i, e);
    } else {
      assert v[i] == e[0] == '\\';
      assert v[i + 2..i + |e|] == e[2..];
      PlainGoesBy(v, i + 2, e[2..]);
    }
  }

  lemma EscapeShape(c: char)
    ensures var e := EscapeChar(c);
            if |e| == 1 then PlainText(e) else |e| >= 2 && e[0] == '\\' && PlainText(e[2..])
  {
    var e := EscapeChar(c);
    if IsControl(c) && |e| == 6 {
      assert e[2..] == "00" + [HexDigit(c as nat / 16), HexDigit(c as nat % 16)];
    }
  }

  lemma {:induction false} BodyGoesBy(v: string, i: nat, s: string)
    requires PlainActions(s) && i + |StrBody(s)| <= |v| && v[i..i + |StrBody(s)|] == StrBody(s)
    ensures CommentAt(v, i, Some('\"')) == CommentAt(v, i + |StrBody(s)|, Some('\"'))
    decreases |s|
  {
    hide CommentAt, ActionLen, EscapeChar, StrBody, PlainText, PlainActions;
    if s == [] {
      EmptyBody(s);
    } else {
      var n := ActionLen(s);
      var head := if n > 0 then s[..n] else EscapeChar(s[0]);
      var rest := if n > 0 then s[n..] else s[1..];
      BodyParts(s);
      HeadOfSlice(v, i, head, StrBody(rest));
      if n > 0 {
        PlainGoesBy(v, i, head);
      } else {
        EscapeGoesBy(v, i, s[0]);
      }
      BodyGoesBy(v, i + |head|, rest);
    }
  }

  lemma BodyParts(s: string)
    requires s != [] && PlainActions(s)
    ensures var n := ActionLen(s);
            if n > 0 then StrBody(s) == s[..n] + StrBody(s[n..]) && PlainText(s[..n]) && PlainActions(s[n..])
            else StrBody(s) == EscapeChar(s[0]) + StrBody(s[1..]) && PlainActions(s[1..])
  {
    hide ActionLen, EscapeChar;
  }

  lemma HeadOfSlice(v: string, i: nat, a: string, b: string)
    requires i + |a + b| <= |v| && v[i..i + |a + b|] == a + b
    ensures v[i..i + |a|] == a && v[i + |a|..i + |a| + |b|] == b
  {
    assert v[i..i + |a + b|][..|a|] == a && v[i..i + |a + b|][|a|..] == b;
  }

  /** Scanning over a string written by the generator; not followed by a quote if it is empty. */
  lemma StrGoesBy(pre: string, s: string, post: string)
    requires PlainActions(s) && (s == [] ==> post == [] || post[0] != '\"')
    ensures var v := pre + Str(s) + post;
            CommentAt(v, |pre|, None) == CommentAt(v, |pre + Str(s)|, None)
  {
    hide StrBody, PlainActions, CommentAt;
    var body := StrBody(s);
    var v := pre + Str(s) + post;
    var i := |pre|;
    StrInside(pre, body, post);
    BodyStart(s);
    EmptyBody(s);
    QuoteStarts(v, i, '\"');
    BodyGoesBy(v, i + 1, s);
    QuoteEnds(v, i + 1 + |body|, '\"');
  }

  lemma EmptyBody(s: string)
    ensures s == [] ==> StrBody(s) == []
  {
  }

  lemma StrInside(pre: string, body: string, post: string)
    ensures var v := pre + ("\"" + body + "\"") + post; var i := |pre|;
            && |v| >= i + 2 + |body| && v[i] == '\"' && v[i + 1..i + 1 + |body|] == body && v[i + 1 + |body|] == '\"'
            && (body != [] ==> v[i + 1] == body[0])
            && (body == [] && post != [] ==> v[i + 2] == post[0])
            && (body == [] && post == [] ==> |v| == i + 2)
  {
    var v := pre + ("\"" + body + "\"") + post;
    assert v == (pre + "\"") + body + ("\"" + post);
  }

  lemma NotMultiline(v: string, i: nat)
    requires i + 1 < |v| && v[i] == '\"' && (v[i + 1] == '\"' ==> i + 2 >= |v| || v[i + 2] != '\"')
    ensures !StartsWith(v, i, "\"\"\"") && !StartsWith(v, i, "'''")
  {
    if i + 3 <= |v| {
      assert v[i..i + 3][0] == v[i] && v[i..i + 3][1] == v[i + 1] && v[i..i + 3][2] == v[i + 2];
    }
  }

  /** A written string is a complete value. */
  lemma StrComplete(s: string)
    requires PlainActions(s)
    ensures Complete(Str(s))
  {
    hide StrBody, PlainActions, CommentAt;
    var v := " " + Str(s);
    StrGoesBy(" ", s, []);
    assert " " + Str(s) + [] == v;
    CommentEnd(v);
    BlankFirst(v);
  }

  lemma CommentEnd(v: string)
    ensures CommentAt(v, |v|, None) == |v|
  {
  }

  lemma BlankFirst(v: string)
    requires v != [] && v[0] == ' '
    ensures CommentAt(v, 0, None) == CommentAt(v, 1, None)
  {
    if |v| >= 3 {
      assert v[0..3][0] == ' ';
    }
  }

  /** A value without quotes or hash signs is complete. */
  lemma {:induction false} WordGoesBy(v: string, i: nat)
    requires forall k :: i <= k < |v| ==> !IsQuote(v[k]) && v[k] != '#'
    ensures CommentAt(v, i, None) == |v|
    decreases |v| - i
  {
    if i < |v| {
      if i + 3 <= |v| {
        assert v[i..i + 3][0] == v[i];
      }
      WordGoesBy(v, i + 1);
    }
  }

  lemma WordComplete(raw: string)
    requires Tight(raw) && forall k :: 0 <= k < |raw| ==> !IsQuote(raw[k]) && raw[k] != '#'
    ensures Complete(raw)
  {
    hide CommentAt, IsSpace;
    var v := " " + raw;
    forall k | 0 <= k < |v| ensures !IsQuote(v[k]) && v[k] != '#' {
      assert k > 0 ==> v[k] == raw[k - 1];
    }
    WordGoesBy(v, 0);
  }

  // ---- What is outside quotes ----

  /** A piece of a value on one line: a character that is no quote and no hash sign, or a string in either kind
      of quotes. */
  datatype Piece = Plain(c: char) | Basic(body: string) | Literal(body: string)

  /** Between double quotes: a backslash goes with the character behind it. */
  predicate BasicBody(body: string) {
    body == []
    || (body[0] == '\\' && |body| > 1 && BasicBody(body[2..]))
    || (body[0] != '\\' && body[0] != '\"' && BasicBody(body[1..]))
  }

  predicate GoodPiece(p: Piece) {
    match p
    case Plain(c) => c != '\"' && c != '\'' && c != '#'
    case Basic(body) => BasicBody(body)
    case Literal(body) => '\'' !in body
  }

  function PieceText(p: Piece): string {
    match p
    case Plain(c) => [c]
    case Basic(body) => "\"" + body + "\""
    case Literal(body) => "'" + body + "'"
  }

  function PiecesText(ps: seq<Piece>): string {
    if ps == [] then [] else PieceText(ps[0]) + PiecesText(ps[1..])
  }

  /** No empty string has another of the same quotes right behind it: the three would open a multi-line one. */
  predicate GoodPieces(ps: seq<Piece>) {
    ps == []
    || (GoodPiece(ps[0]) && GoodPieces(ps[1..])
        && (|ps| > 1 ==> !(ps[0] == Basic("") && ps[1].Basic?) && !(ps[0] == Literal("") && ps[1].Literal?)))
  }

  lemma {:induction false} BasicGoesBy(v: string, i: nat, body: string)
    requires BasicBody(body) && i + |body| <= |v| && v[i..i + |body|] == body
    ensures CommentAt(v, i, Some('\"')) == CommentAt(v, i + |body|, Some('\"'))
    decreases |body|
  {
    if body != [] {
      assert v[i] == body[0];
      if body[0] == '\\' {
        assert v[i + 2..i + |body|] == body[2..];
        BasicGoesBy(v, i + 2, body[2..]);
      } else {
        assert v[i + 1..i + |body|] == body[1..];
        BasicGoesBy(v, i + 1, body[1..]);
      }
    }
  }

  lemma {:induction false} LiteralGoesBy(v: string, i: nat, body: string)
    requires '\'' !in body && i + |body| <= |v| && v[i..i + |body|] == body
    ensures CommentAt(v, i, Some('\'')) == CommentAt(v, i + |body|, Some('\''))
    decreases |body|
  {
    if body != [] {
      assert v[i] == body[0] && body[0] in body;
      assert v[i + 1..i + |body|] == body[1..];
      LiteralGoesBy(v, i + 1, body[1..]);
    }
  }

  lemma QuotedInside(pre: string, q: char, body: string, post: string)
    ensures var v := pre + ([q] + body + [q]) + post; var i := |pre|;
            && |v| >= i + 2 + |body| && v[i] == q && v[i + 1..i + 1 + |body|] == body && v[i + 1 + |body|] == q
            && (body != [] ==> v[i + 1] == body[0])
            && (body == [] && post != [] ==> v[i + 2] == post[0])
            && (body == [] && post == [] ==> |v| == i + 2)
  {
    var v := pre + ([q] + body + [q]) + post;
    assert v == (pre + [q]) + body + ([q] + post);
  }

  lemma QuoteStarts(v: string, i: nat, q: char)
    requires q == '\"' || q == '\''
    requires i + 1 < |v| && v[i] == q && (v[i + 1] == q ==> i + 2 >= |v| || v[i + 2] != q)
    ensures CommentAt(v, i, None) == CommentAt(v, i + 1, Some(q))
  {
    hide MultilineEnd;
    if i + 3 <= |v| {
      assert v[i..i + 3][0] == v[i] && v[i..i + 3][1] == v[i + 1] && v[i..i + 3][2] == v[i + 2];
    }
  }

  lemma QuoteEnds(v: string, i: nat, q: char)
    requires i < |v| && v[i] == q != '\\'
    ensures CommentAt(v, i, Some(q)) == CommentAt(v, i + 1, None)
  {
  }

  lemma PlainStep(v: string, i: nat)
    requires i < |v| && v[i] != '\"' && v[i] != '\'' && v[i] != '#'
    ensures CommentAt(v, i, None) == CommentAt(v, i + 1, None)
  {
    if i + 3 <= |v| {
      assert v[i..i + 3][0] == v[i];
    }
  }

  // A string of either kind goes by, once its body does.
  lemma StringGoesBy(pre: string, q: char, body: string, post: string)
    requires q == '\"' || q == '\''
    requires if body == [] then post == [] || post[0] != q else body[0] != q
    requires var v := pre + ([q] + body + [q]) + post;
             CommentAt(v, |pre| + 1, Some(q)) == CommentAt(v, |pre| + 1 + |body|, Some(q))
    ensures var v := pre + ([q] + body + [q]) + post;
            CommentAt(v, |pre|, None) == CommentAt(v, |pre| + 2 + |body|, None)
  {
    hide CommentAt;
    QuotedInside(pre, q, body, post);
    var v := pre + ([q] + body + [q]) + post;
    QuoteStarts(v, |pre|, q);
    QuoteEnds(v, |pre| + 1 + |body|, q);
  }

  lemma BasicString(pre: string, body: string, post: string)
    requires BasicBody(body) && (body == [] && post != [] ==> post[0] != '\"')
    ensures var v := pre + ("\"" + body + "\"") + post;
            CommentAt(v, |pre|, None) == CommentAt(v, |pre| + 2 + |body|, None)
  {
    hide CommentAt;
    QuotedInside(pre, '\"', body, post);
    BasicGoesBy(pre + (['\"'] + body + ['\"']) + post, |pre| + 1, body);
    StringGoesBy(pre, '\"', body, post);
    assert "\"" + body + "\"" == ['\"'] + body + ['\"'];
  }

  lemma LiteralString(pre: string, body: string, post: string)
    requires '\'' !in body && (body == [] && post != [] ==> post[0] != '\'')
    ensures var v := pre + ("'" + body + "'") + post;
            CommentAt(v, |pre|, None) == CommentAt(v, |pre| + 2 + |body|, None)
  {
    hide CommentAt;
    assert body != [] ==> body[0] in body;
    QuotedInside(pre, '\'', body, post);
    LiteralGoesBy(pre + (['\''] + body + ['\'']) + post, |pre| + 1, body);
    StringGoesBy(pre, '\'', body, post);
    assert "'" + body + "'" == ['\''] + body + ['\''];
  }

  lemma PieceGoesBy(pre: string, p: Piece, post: string)
    requires GoodPiece(p)
    requires post != [] && p == Basic("") ==> post[0] != '\"'
    requires post != [] && p == Literal("") ==> post[0] != '\''
    ensures CommentAt(pre + PieceText(p) + post, |pre|, None) == CommentAt(pre + PieceText(p) + post, |pre| + |PieceText(p)|, None)
  {
    hide CommentAt, BasicBody;
    match p
    case Plain(c) => PlainStep(pre + [c] + post, |pre|);
    case Basic(body) => BasicString(pre, body, post);
    case Literal(body) => LiteralString(pre, body, post);
  }

  lemma {:induction false} PiecesGoBy(pre: string, ps: seq<Piece>, post: string)
    requires GoodPieces(ps) && (post != [] ==> !IsQuote(post[0]))
    ensures CommentAt(pre + PiecesText(ps) + post, |pre|, None)
         == CommentAt(pre + PiecesText(ps) + post, |pre| + |PiecesText(ps)|, None)
    decreases ps
  {
    hide CommentAt, BasicBody, PieceText, GoodPiece;
    if ps != [] {
      var p, more := PieceText(ps[0]), PiecesText(ps[1..]);
      BehindPiece(ps, post);
      PieceGoesBy(pre, ps[0], more + post);
      PiecesGoBy(pre + p, ps[1..], post);
      Regrouped(pre, p, more, post);
    }
  }

  lemma Regrouped(a: string, b: string, c: string, d: string)
    ensures a + b + (c + d) == a + (b + c) + d && (a + b) + c + d == a + (b + c) + d
  {
  }

  lemma BehindPiece(ps: seq<Piece>, post: string)
    requires ps != [] && GoodPieces(ps) && (post != [] ==> !IsQuote(post[0]))
    ensures var next := PiecesText(ps[1..]) + post;
            && (next != [] && ps[0] == Basic("") ==> next[0] != '\"')
            && (next != [] && ps[0] == Literal("") ==> next[0] != '\'')
    ensures GoodPiece(ps[0])
  {
    hide BasicBody;
    FirstOfPieces(ps);
    if |ps| > 1 {
      assert ps[1..][0] == ps[1] && GoodPiece(ps[1]);
    }
  }

  lemma FirstOfPieces(ps: seq<Piece>)
    requires ps != []
    ensures PiecesText(ps[1..]) != [] ==> |ps| > 1 && PiecesText(ps[1..])[0] == PieceText(ps[1])[0]
    ensures |ps| > 1 ==> PiecesText(ps[1..]) != []
  {
    if |ps| > 1 {
      assert ps[1..][0] == ps[1];
    }
  }

  /** The end comment of a value is what starts at the first hash sign outside quotes: behind pieces of a value
      it is found there, and without one there is none. */
  lemma CommentFound(ps: seq<Piece>, note: string)
    requires GoodPieces(ps)
    ensures CommentAt(PiecesText(ps) + "#" + note, 0, None) == |PiecesText(ps)|
    ensures CommentAt(PiecesText(ps), 0, None) == |PiecesText(ps)|
  {
    hide CommentAt, PiecesText, BasicBody;
    var t := PiecesText(ps);
    PiecesGoBy([], ps, "#" + note);
    PiecesGoBy([], ps, []);
    assert [] + t + ("#" + note) == t + "#" + note && [] + t + [] == t && |[] + t| == |t|;
    HashFound(t + "#" + note, |t|);
    CommentEnd(t);
  }

  lemma HashFound(v: string, i: nat)
    requires i < |v| && v[i] == '#'
    ensures CommentAt(v, i, None) == i
  {
    if i + 3 <= |v| {
      assert v[i..i + 3][0] == v[i];
    }
  }

  /** The value of a line, whatever its end comment. */
  lemma NoteLeftOut(ps: seq<Piece>, note: string)
    requires GoodPieces(ps)
    ensures ValueText(PiecesText(ps) + "#" + note) == Trim(PiecesText(ps)) == ValueText(PiecesText(ps))
  {
    hide CommentAt, PiecesText, Trim;
    CommentFound(ps, note);
    var t := PiecesText(ps);
    assert (t + "#" + note)[..|t|] == t && t[..|t|] == t;
  }

  /** A key in quotes may hold equals signs and hash signs: the line's own sign is the one behind the quotes. */
  lemma QuotedKeyEnds(q: char, k: string, spaces: string, rest: string)
    requires (q == '\"' && BasicBody(k)) || (q == '\'' && '\'' !in k)
    requires forall i :: 0 <= i < |spaces| ==> spaces[i] == ' '
    ensures KeyEnd([q] + k + [q] + spaces + "=" + rest, 0, None) == Some(|k| + 2 + |spaces|)
  {
    hide KeyEnd, BasicBody;
    var line := [q] + k + [q] + spaces + "=" + rest;
    assert line[1..1 + |k|] == k && line[1 + |k|] == q;
    var e := 2 + |k| + |spaces|;
    assert forall j :: 2 + |k| <= j < e ==> line[j] == spaces[j - 2 - |k|];
    KeyOpens(line, q);
    if q == '\"' {
      BasicKeyGoesBy(line, 1, k);
    } else {
      LiteralKeyGoesBy(line, 1, k);
    }
    KeyCloses(line, 1 + |k|, q);
    SpacesToEquals(line, 2 + |k|, e);
  }

  lemma KeyOpens(line: string, q: char)
    requires line != [] && line[0] == q && IsQuote(q)
    ensures KeyEnd(line, 0, None) == KeyEnd(line, 1, Some(q))
  {
  }

  lemma KeyCloses(line: string, i: nat, q: char)
    requires i < |line| && line[i] == q && IsQuote(q)
    ensures KeyEnd(line, i, Some(q)) == KeyEnd(line, i + 1, None)
  {
  }

  lemma {:induction false} BasicKeyGoesBy(line: string, i: nat, body: string)
    requires BasicBody(body) && i + |body| <= |line| && line[i..i + |body|] == body
    ensures KeyEnd(line, i, Some('\"')) == KeyEnd(line, i + |body|, Some('\"'))
    decreases |body|
  {
    if body != [] {
      assert line[i] == body[0];
      if body[0] == '\\' {
        assert line[i + 2..i + |body|] == body[2..];
        BasicKeyGoesBy(line, i + 2, body[2..]);
      } else {
        assert line[i + 1..i + |body|] == body[1..];
        BasicKeyGoesBy(line, i + 1, body[1..]);
      }
    }
  }

  lemma {:induction false} LiteralKeyGoesBy(line: string, i: nat, body: string)
    requires '\'' !in body && i + |body| <= |line| && line[i..i + |body|] == body
    ensures KeyEnd(line, i, Some('\'')) == KeyEnd(line, i + |body|, Some('\''))
    decreases |body|
  {
    if body != [] {
      assert line[i] == body[0] && body[0] in body;
      assert line[i + 1..i + |body|] == body[1..];
      LiteralKeyGoesBy(line, i + 1, body[1..]);
    }
  }

  lemma {:induction false} SpacesToEquals(line: string, i: nat, e: nat)
    requires i <= e < |line| && (forall k :: i <= k < e ==> line[k] == ' ') && line[e] == '='
    ensures KeyEnd(line, i, None) == Some(e)
    decreases e - i
  {
    if i < e {
      SpacesToEquals(line, i + 1, e);
    }
  }
}
