/** The list of domains of a tunnel: written as an array of strings, read as one text. */
module DomainLists {
  import opened Wrappers
  import opened TomlStrings
  import opened TextLines
  import opened TomlText
  import opened TomlValues
  import opened DomainText

  // ---- Comma-separated lists ----

  function FindComma(s: string): (n: nat)
    ensures n <= |s| && (n < |s| ==> s[n] == ',') && forall k :: 0 <= k < n ==> s[k] != ','
  {
    if s == [] || s[0] == ',' then 0 else 1 + FindComma(s[1..])
  }

  /** Items of a comma-separated text, trimmed, empty ones left out. */
  function Items(s: string): seq<string>
    decreases |s|
  {
    var n := FindComma(s);
    (if Trim(s[..n]) != [] then [Trim(s[..n])] else []) + (if n < |s| then Items(s[n + 1..]) else [])
  }

  function Join(items: seq<string>): string {
    if items == [] then [] else if |items| == 1 then items[0] else items[0] + ", " + Join(items[1..])
  }

  predicate IsItem(d: string) {
    Tight(d) && ',' !in d
  }

  lemma CommaAfter(d: string, rest: string)
    requires ',' !in d
    ensures FindComma(d + "," + rest) == |d| && FindComma(d) == |d| && FindComma(" " + d + "," + rest) == |d| + 1
    ensures FindComma(" " + d) == |d| + 1
  {
    AtComma(d + "," + rest, |d|);
    AtComma(" " + d + "," + rest, |d| + 1);
    AtComma(d, |d|);
    AtComma(" " + d, |d| + 1);
  }

  lemma AtComma(s: string, n: nat)
    requires n <= |s| && (n < |s| ==> s[n] == ',') && forall k :: 0 <= k < n ==> s[k] != ','
    ensures FindComma(s) == n
  {
    var m := FindComma(s);
    assert m <= n && n <= m;
  }

  lemma {:induction false} ItemsOfJoin(items: seq<string>)
    requires forall d :: d in items ==> IsItem(d)
    ensures items != [] ==> Items(Join(items)) == items && Items(" " + Join(items)) == items
  {
    hide IsItem, Items, Join;
    if items != [] {
      var d, rest := items[0], items[1..];
      assert items == [d] + rest && d in items;
      if rest == [] {
        assert items == [d];
        LastItem(d);
        JoinOne(d);
      } else {
        ItemsOfJoin(rest);
        JoinMore(d, rest);
        FirstItem(d, " " + Join(rest));
      }
    }
  }

  lemma JoinOne(d: string)
    ensures Join([d]) == d
  {
  }

  lemma JoinMore(d: string, rest: seq<string>)
    requires rest != []
    ensures Join([d] + rest) == d + "," + (" " + Join(rest))
    ensures " " + Join([d] + rest) == " " + d + "," + (" " + Join(rest))
  {
    assert ([d] + rest)[1..] == rest;
  }

  lemma LastItem(d: string)
    requires IsItem(d)
    ensures Items(d) == [d] && Items(" " + d) == [d]
  {
    hide Trim, IsSpace, FindComma;
    CommaAfter(d, "");
    TrimTight(d);
    assert d[..|d|] == d && (" " + d)[..|d| + 1] == " " + d;
  }

  lemma FirstItem(d: string, rest: string)
    requires IsItem(d)
    ensures Items(d + "," + rest) == [d] + Items(rest) && Items(" " + d + "," + rest) == [d] + Items(rest)
  {
    hide Trim, IsSpace, FindComma;
    CommaAfter(d, rest);
    TrimTight(d);
    var s, s' := d + "," + rest, " " + d + "," + rest;
    assert s[..|d|] == d && s[|d| + 1..] == rest;
    assert s'[..|d| + 1] == " " + d && s'[|d| + 2..] == rest;
  }

  // ---- Arrays of strings ----

  function Quoted(t: string): string {
    "\"" + t + "\""
  }

  function QuotedAll(ts: seq<string>): seq<string> {
    if ts == [] then [] else [Quoted(ts[0])] + QuotedAll(ts[1..])
  }

  function ArrayText(items: seq<string>): string {
    "[" + Join(items) + "]"
  }

  /** The text without quotes and brackets. */
  function Bare(s: string): string {
    if s == [] then [] else (if IsQuote(s[0]) || s[0] == '[' || s[0] == ']' then [] else [s[0]]) + Bare(s[1..])
  }

  predicate NoQuotes(t: string) {
    forall k :: 0 <= k < |t| ==> !IsQuote(t[k]) && t[k] != '[' && t[k] != ']' && t[k] != '\\' && t[k] != '\n' && t[k] != '\r'
  }

  lemma {:induction false} BareApart(a: string, b: string)
    ensures Bare(a + b) == Bare(a) + Bare(b)
  {
    if a == [] {
      assert a + b == b;
    } else {
      assert (a + b)[0] == a[0] && (a + b)[1..] == a[1..] + b;
      BareApart(a[1..], b);
    }
  }

  lemma {:induction false} BareIsSame(t: string)
    requires NoQuotes(t)
    ensures Bare(t) == t
  {
    if t != [] {
      BareIsSame(t[1..]);
    }
  }

  lemma BareQuoted(t: string)
    requires NoQuotes(t)
    ensures Bare(Quoted(t)) == t
  {
    BareApart("\"" + t, "\"");
    BareApart("\"", t);
    BareIsSame(t);
    BareMarks();
  }

  lemma BareMarks()
    ensures Bare("\"") == [] && Bare("[") == [] && Bare("]") == [] && Bare(", ") == ", "
  {
    BareMark('\"');
    BareMark('[');
    BareMark(']');
    BareKeeps(',', " ");
    BareKeeps(' ', "");
    assert "\"" == ['\"'] && "[" == ['['] && "]" == [']'];
    assert ", " == [','] + " " && " " == [' '] + "";
  }

  lemma BareMark(c: char)
    requires IsQuote(c) || c == '[' || c == ']'
    ensures Bare([c]) == []
  {
    assert [c][1..] == [];
  }

  lemma BareKeeps(c: char, rest: string)
    requires !IsQuote(c) && c != '[' && c != ']'
    ensures Bare([c] + rest) == [c] + Bare(rest)
    ensures Bare([]) == []
  {
    assert ([c] + rest)[1..] == rest;
  }

  lemma {:induction false} BareJoin(ts: seq<string>)
    requires forall t :: t in ts ==> NoQuotes(t)
    ensures Bare(Join(QuotedAll(ts))) == Join(ts) && |QuotedAll(ts)| == |ts|
  {
    hide NoQuotes, Bare, Quoted;
    if ts == [] {
      assert Bare([]) == [] by { BareIsSame([]); NoneQuoted(); }
    } else {
      var rest := ts[1..];
      BareJoin(rest);
      BareQuoted(ts[0]);
      assert QuotedAll(ts)[1..] == QuotedAll(rest);
      if rest != [] {
        BareApart(Quoted(ts[0]) + ", ", Join(QuotedAll(rest)));
        BareApart(Quoted(ts[0]), ", ");
        BareMarks();
      }
    }
  }

  lemma NoneQuoted()
    ensures NoQuotes([])
  {
  }

  lemma BareArray(ts: seq<string>)
    requires forall t :: t in ts ==> NoQuotes(t)
    ensures Bare(ArrayText(QuotedAll(ts))) == Join(ts)
  {
    hide Bare, NoQuotes, Join;
    var j := Join(QuotedAll(ts));
    BareJoin(ts);
    BareApart("[" + j, "]");
    BareApart("[", j);
    BareMarks();
  }

  // An array of plain strings is a complete value.
  lemma QuotedGoesBy(pre: string, t: string, post: string)
    requires NoQuotes(t) && t != []
    ensures var v := pre + Quoted(t) + post;
            CommentAt(v, |pre|, None) == CommentAt(v, |pre + Quoted(t)|, None)
            && Brackets(v, |pre|, None) == Brackets(v, |pre + Quoted(t)|, None)
  {
    hide CommentAt, Brackets, NoQuotes;
    var v := pre + Quoted(t) + post;
    var i := |pre|;
    StrInside(pre, t, post);
    NoQuoteFirst(t);
    QuoteStarts(v, i, '\"');
    NoQuotesPlain(t);
    PlainGoesBy(v, i + 1, t);
    QuoteEnds(v, i + 1 + |t|, '\"');
    QuotedCountsNone(v, i, t);
  }

  lemma NoQuoteFirst(t: string)
    requires NoQuotes(t) && t != []
    ensures t[0] != '\"'
  {
  }

  lemma NoQuotesPlain(t: string)
    requires NoQuotes(t)
    ensures PlainText(t)
  {
  }

  lemma {:induction false} JoinGoesBy(pre: string, ts: seq<string>, post: string)
    requires ts != [] && forall t :: t in ts ==> NoQuotes(t) && t != []
    ensures var v := pre + Join(QuotedAll(ts)) + post;
            CommentAt(v, |pre|, None) == CommentAt(v, |pre + Join(QuotedAll(ts))|, None)
            && Brackets(v, |pre|, None) == Brackets(v, |pre + Join(QuotedAll(ts))|, None)
    decreases |ts|
  {
    hide CommentAt, Brackets, NoQuotes, Quoted;
    var q, rest := Quoted(ts[0]), ts[1..];
    var j := Join(QuotedAll(ts));
    var v := pre + j + post;
    assert QuotedAll(ts)[1..] == QuotedAll(rest);
    if rest == [] {
      assert j == q;
      QuotedGoesBy(pre, ts[0], post);
    } else {
      assert |QuotedAll(rest)| > 0;
      var j' := Join(QuotedAll(rest));
      assert j == q + ", " + j';
      Assoc4(pre, q, ", ", j', post);
      QuotedGoesBy(pre, ts[0], ", " + j' + post);
      SeparatorGoesBy(v, |pre + q|);
      JoinGoesBy(pre + q + ", ", rest, post);
    }
  }

  lemma Assoc4(a: string, b: string, c: string, d: string, e: string)
    ensures a + (b + c + d) + e == a + b + (c + d + e) == (a + b + c) + d + e
    ensures |c| == 2 ==> (a + (b + c + d) + e)[|a + b|] == c[0] && (a + (b + c + d) + e)[|a + b| + 1] == c[1]
  {
    assert a + (b + c + d) + e == (a + b) + c + (d + e);
  }

  lemma SeparatorGoesBy(v: string, i: nat)
    requires i + 2 <= |v| && v[i] == ',' && v[i + 1] == ' '
    ensures CommentAt(v, i, None) == CommentAt(v, i + 2, None) && Brackets(v, i, None) == Brackets(v, i + 2, None)
  {
    hide Brackets, CommentAt;
    NoMarkAt(v, i);
    NoMarkAt(v, i + 1);
    NoBracketAt(v, i);
    NoBracketAt(v, i + 1);
  }

  lemma NoMarkAt(v: string, i: nat)
    requires i < |v| && !IsQuote(v[i]) && v[i] != '#'
    ensures CommentAt(v, i, None) == CommentAt(v, i + 1, None)
  {
    if i + 3 <= |v| {
      assert v[i..i + 3][0] == v[i];
    }
  }

  lemma ArrayComplete(ts: seq<string>)
    requires ts != [] && forall t :: t in ts ==> NoQuotes(t) && t != []
    ensures Complete(ArrayText(QuotedAll(ts))) && Unquote(ArrayText(QuotedAll(ts))) == ArrayText(QuotedAll(ts))
  {
    hide CommentAt, NoQuotes, Join, MultilineEnd;
    var j := Join(QuotedAll(ts));
    var raw := "[" + j + "]";
    var v := " " + raw;
    assert v == " [" + j + "]";
    JoinGoesBy(" [", ts, "]");
    NoMarkAt(v, 0);
    NoMarkAt(v, 1);
    NoMarkAt(v, |v| - 1);
    CommentEnd(v);
    assert |raw| >= 3 ==> raw[0..3][0] == '[';
    BracketsTight(raw);
  }

  /** Such an array stays on its line. */
  lemma ArrayOneLine(ts: seq<string>)
    requires ts != [] && forall t :: t in ts ==> NoQuotes(t) && t != []
    ensures OneLine(ArrayText(QuotedAll(ts)))
  {
    hide Complete, NoQuotes, Join, Brackets;
    var j := Join(QuotedAll(ts));
    var raw := "[" + j + "]";
    ArrayComplete(ts);
    assert raw[0] == '[' && (|raw| >= 3 ==> raw[0..3][0] == '[');
    JoinGoesBy("[", ts, "]");
    BracketEnds(raw);
    JoinNoBreak(ts);
  }

  lemma BracketEnds(raw: string)
    requires |raw| >= 2 && raw[0] == '[' && raw[|raw| - 1] == ']' && Brackets(raw, 1, None) == Brackets(raw, |raw| - 1, None)
    ensures BracketDepth(raw) == 0
  {
  }

  lemma {:induction false} JoinNoBreak(ts: seq<string>)
    requires forall t :: t in ts ==> NoQuotes(t)
    ensures NoBreak(Join(QuotedAll(ts)))
  {
    if ts != [] {
      JoinNoBreak(ts[1..]);
      assert QuotedAll(ts)[1..] == QuotedAll(ts[1..]) && ts[0] in ts;
      assert NoBreak(Quoted(ts[0]));
    }
  }

  lemma BracketsTight(raw: string)
    requires |raw| >= 2 && raw[0] == '[' && raw[|raw| - 1] == ']'
    ensures Tight(raw)
  {
  }


  // ---- Domains in an array ----

  /** A domain that can be written: not empty. */
  predicate GoodDomain(d: string) {
    d != [] && Domain(d)
  }

  // A domain needs no escape.
  lemma {:induction false} DomainBody(d: string)
    requires Domain(d)
    ensures StrBody(d) == d && NoQuotes(d) && PlainActions(d)
    decreases |d|
  {
    hide NoQuotes, PlainActions, StrBody;
    if d == [] {
      NothingWritten();
    } else if StartsWith(d, 0, PORT_TOKEN) {
      TokenHead(d);
      var tail := d[|PORT_TOKEN|..];
      DomainBody(tail);
      TokenWritten(tail);
    } else {
      DomainBody(d[1..]);
      assert d == [d[0]] + d[1..];
      CharWritten(d[0], d[1..]);
    }
  }

  lemma TokenWritten(tail: string)
    requires StrBody(tail) == tail && NoQuotes(tail) && PlainActions(tail)
    ensures var d := PORT_TOKEN + tail; StrBody(d) == d && NoQuotes(d) && PlainActions(d)
  {
    hide NoQuotes, PlainActions, StrBody;
    Spelled(tail);
    CharWritten('}', tail);
    CharWritten('t', "}" + tail);
    CharWritten('r', "t}" + tail);
    CharWritten('o', "rt}" + tail);
    CharWritten('p', "ort}" + tail);
    BraceWritten("port}" + tail);
  }

  lemma Spelled(tail: string)
    ensures ['}'] + tail == "}" + tail && ['t'] + ("}" + tail) == "t}" + tail && ['r'] + ("t}" + tail) == "rt}" + tail
    ensures ['o'] + ("rt}" + tail) == "ort}" + tail && ['p'] + ("ort}" + tail) == "port}" + tail
    ensures ['{'] + ("port}" + tail) == PORT_TOKEN + tail
  {
  }

  lemma NothingWritten()
    ensures StrBody([]) == [] && NoQuotes([]) && PlainActions([])
  {
  }

  lemma CharWritten(c: char, rest: string)
    requires StrBody(rest) == rest && NoQuotes(rest) && PlainActions(rest)
    requires !IsControl(c) && !IsQuote(c) && c !in "\\[]{"
    ensures StrBody([c] + rest) == [c] + rest && NoQuotes([c] + rest) && PlainActions([c] + rest)
  {
    var s := [c] + rest;
    assert s[1..] == rest && ActionLen(s) == 0 && EscapeChar(c) == [c];
  }

  lemma BraceWritten(rest: string)
    requires StrBody(rest) == rest && NoQuotes(rest) && PlainActions(rest) && rest != [] && rest[0] != '{'
    ensures StrBody(['{'] + rest) == ['{'] + rest && NoQuotes(['{'] + rest) && PlainActions(['{'] + rest)
  {
    var s := ['{'] + rest;
    assert s[1..] == rest && s[1] == rest[0] && ActionLen(s) == 0 && EscapeChar('{') == "{";
  }

  lemma {:induction false} LoopedInside(d: string, port: string, rest: string)
    requires Domain(d) && rest == "\""
    ensures ReplaceAll(d + rest, PORT_TOKEN, port) == Looped(d, port) + rest
    decreases |d|
  {
    hide ReplaceAll;
    if d == [] {
      assert [] + rest == rest;
      QuoteStays(port);
      LoopedNothing(port);
    } else if StartsWith(d, 0, PORT_TOKEN) {
      TokenHead(d);
      var tail := d[|PORT_TOKEN|..];
      LoopedInside(tail, port, rest);
      LoopedToken(tail, port, rest);
      LoopedToken(tail + rest, port, "");
      assert PORT_TOKEN + (tail + rest) == d + rest;
      assert Looped(d + rest, port) + "" == Looped(d + rest, port);
      assert port + (Looped(tail + rest, port) + "") == port + Looped(tail + rest, port);
    } else {
      LoopedInside(d[1..], port, rest);
      LoopedChar(d, port, rest);
      TokenNotCrossing(d);
      LoopedChar(d + rest, port, "");
      assert (d + rest)[1..] == d[1..] + rest;
      assert Looped(d + rest, port) + "" == Looped(d + rest, port);
    }
  }

  lemma QuoteStays(port: string)
    ensures ReplaceAll("\"", PORT_TOKEN, port) == "\""
  {
    assert "\""[1..] == [];
  }

  // A token does not go over the closing quote.
  lemma TokenNotCrossing(d: string)
    requires d != [] && !StartsWith(d, 0, PORT_TOKEN)
    ensures !StartsWith(d + "\"", 0, PORT_TOKEN)
  {
    var s := d + "\"";
    if |s| >= 6 {
      if |d| >= 6 {
        assert s[0..6] == d[0..6];
      } else {
        assert s[0..6][|d|] == '\"';
      }
    }
  }

  /** A domain as it is written in the array. */
  function WrittenDomain(d: string, ranged: bool): string {
    if ranged then ReplaceAll(Str(d), PORT_TOKEN, PORT_ALONE) else Str(d)
  }

  function WrittenDomains(ds: seq<string>, ranged: bool): seq<string> {
    if ds == [] then [] else [WrittenDomain(ds[0], ranged)] + WrittenDomains(ds[1..], ranged)
  }

  /** The texts between the quotes. */
  function Texts(ds: seq<string>, ranged: bool): seq<string> {
    if ds == [] then [] else [if ranged then Looped(ds[0], PORT_ALONE) else ds[0]] + Texts(ds[1..], ranged)
  }

  lemma WrittenIsQuoted(d: string, ranged: bool)
    requires Domain(d)
    ensures WrittenDomain(d, ranged) == Quoted(if ranged then Looped(d, PORT_ALONE) else d)
  {
    hide ReplaceAll, StrBody;
    DomainBody(d);
    if ranged {
      var s := Str(d);
      LoopedInside(d, PORT_ALONE, "\"");
      assert s == ['\"'] + (d + "\"");
      NoTokenAtQuote(d + "\"");
      LoopedChar(s, PORT_ALONE, "");
      assert s[1..] == d + "\"";
      assert Looped(s, PORT_ALONE) + "" == Looped(s, PORT_ALONE);
      assert ['\"'] + (Looped(d, PORT_ALONE) + "\"" + "") == Quoted(Looped(d, PORT_ALONE));
    }
  }

  lemma NoTokenAtQuote(rest: string)
    ensures !StartsWith(['\"'] + rest, 0, PORT_TOKEN)
  {
    var s := ['\"'] + rest;
    if |s| >= 6 {
      assert s[0..6][0] == '\"';
    }
  }

  lemma {:induction false} WrittenAreQuoted(ds: seq<string>, ranged: bool)
    requires forall d :: d in ds ==> Domain(d)
    ensures WrittenDomains(ds, ranged) == QuotedAll(Texts(ds, ranged))
  {
    hide WrittenDomain, Domain, Quoted;
    if ds != [] {
      WrittenIsQuoted(ds[0], ranged);
      WrittenAreQuoted(ds[1..], ranged);
      assert Texts(ds, ranged)[1..] == Texts(ds[1..], ranged);
    }
  }

  /** Characters of a written domain: no quote, no comma, no bracket, no line end. */
  predicate TextChars(t: string) {
    forall k :: 0 <= k < |t| ==> !IsQuote(t[k]) && t[k] !in "\\[],\n\r"
  }

  lemma {:induction false} LoopedChars(d: string)
    requires Domain(d)
    ensures TextChars(Looped(d, PORT_ALONE)) && TextChars(d)
    ensures d != [] ==> Tight(Looped(d, PORT_ALONE)) && Tight(d)
    decreases |d|
  {
    hide TextChars, ReplaceAll, Tight;
    LoopedNothing(PORT_ALONE);
    if d == [] {
      NoChars();
    } else if StartsWith(d, 0, PORT_TOKEN) {
      TokenHead(d);
      var tail := d[|PORT_TOKEN|..];
      LoopedChars(tail);
      LoopedToken(tail, PORT_ALONE, "");
      assert Looped(d, PORT_ALONE) + "" == Looped(d, PORT_ALONE) && Looped(tail, PORT_ALONE) + "" == Looped(tail, PORT_ALONE);
      MarksAreText();
      CharsApart(PORT_ALONE, Looped(tail, PORT_ALONE));
      CharsApart(PORT_TOKEN, tail);
    } else {
      var tail := d[1..];
      LoopedChars(tail);
      LoopedChar(d, PORT_ALONE, "");
      assert Looped(d, PORT_ALONE) + "" == Looped(d, PORT_ALONE) && Looped(tail, PORT_ALONE) + "" == Looped(tail, PORT_ALONE);
      assert d == [d[0]] + tail;
      OneChar(d[0]);
      CharsApart([d[0]], Looped(tail, PORT_ALONE));
      CharsApart([d[0]], tail);
      assert tail == [] ==> [d[0]] + Looped(tail, PORT_ALONE) == [d[0]];
    }
  }

  lemma NoChars()
    ensures TextChars([])
  {
  }

  lemma MarksAreText()
    ensures TextChars(PORT_ALONE) && TextChars(PORT_TOKEN) && Tight(PORT_ALONE) && Tight(PORT_TOKEN)
  {
  }

  lemma OneChar(c: char)
    requires DomainChar(c)
    ensures TextChars([c]) && Tight([c])
  {
  }

  lemma CharsApart(a: string, b: string)
    ensures TextChars(a) && TextChars(b) ==> TextChars(a + b)
    ensures Tight(a) && (b == [] || Tight(b)) ==> Tight(a + b)
  {
    hide IsSpace, IsQuote;
  }

  lemma {:induction false} TextsAreItems(ds: seq<string>, ranged: bool)
    requires forall d :: d in ds ==> GoodDomain(d)
    ensures |Texts(ds, ranged)| == |ds|
    ensures forall t :: t in Texts(ds, ranged) ==> IsItem(t) && NoQuotes(t) && t != []
  {
    hide Looped, Domain;
    if ds != [] {
      assert ds[0] in ds;
      LoopedChars(ds[0]);
      TextIsItem(if ranged then Looped(ds[0], PORT_ALONE) else ds[0]);
      TextsAreItems(ds[1..], ranged);
    }
  }

  lemma TextIsItem(t: string)
    requires TextChars(t) && Tight(t)
    ensures IsItem(t) && NoQuotes(t) && t != []
  {
  }

  // Reading {port} back in the joined list.
  lemma {:induction false} TokensBack(ds: seq<string>)
    requires forall d :: d in ds ==> GoodDomain(d)
    ensures LoopsToToken(Join(Texts(ds, true)), FIRST) == Join(ds)
  {
    hide LoopLen, ReplaceAll, LoopsToToken, Domain;
    LoopTexts();
    NoLoops();
    if ds != [] {
      var d, rest := ds[0], ds[1..];
      assert d in ds && ds == [d] + rest;
      assert Texts(ds, true)[1..] == Texts(rest, true);
      TokensBack(rest);
      TextsAreItems(rest, true);
      if rest == [] {
        DomainLooped(d, PORT_ALONE, FIRST, []);
        assert Looped(d, PORT_ALONE) + [] == Looped(d, PORT_ALONE) && d + [] == d;
      } else {
        var j := Join(Texts(rest, true));
        DomainLooped(d, PORT_ALONE, FIRST, ", " + j);
        CharThere(' ', j, FIRST);
        CharThere(',', " " + j, FIRST);
        assert [','] + (" " + j) == ", " + j && [' '] + j == " " + j;
        assert [','] + ([' '] + Join(rest)) == ", " + Join(rest);
        assert Join(Texts(ds, true)) == Looped(d, PORT_ALONE) + (", " + j);
        assert Join(ds) == d + (", " + Join(rest));
      }
    }
  }

  lemma NoLoops()
    ensures LoopsToToken([], FIRST) == []
  {
  }

  /** The domains written in a file: the array of the items of the text. */
  function DomainsRaw(domains: string, ranged: bool): string {
    ArrayText(WrittenDomains(Items(domains), ranged))
  }

  /** The domains read from a value. */
  function DomainsOf(value: string, ranged: bool): string {
    var domains := Join(Items(Bare(value)));
    if ranged then LoopsToToken(domains, FIRST) else domains
  }

  /** Domains as the page keeps them. */
  ghost predicate NormalDomains(domains: string) {
    exists ds :: ds != [] && (forall d :: d in ds ==> GoodDomain(d)) && domains == Join(ds)
  }

  /** Domains written and read are the same. */
  lemma DomainsRoundTrip(domains: string, ranged: bool)
    requires NormalDomains(domains)
    ensures OneLine(DomainsRaw(domains, ranged))
    ensures DomainsOf(Unquote(DomainsRaw(domains, ranged)), ranged) == domains
  {
    hide Domain, Join, Items, LoopsToToken, NoQuotes, IsItem, OneLine, Complete, Unquote;
    var ds :| ds != [] && (forall d :: d in ds ==> GoodDomain(d)) && domains == Join(ds);
    TextsAreItems(ds, false);
    TextsAreItems(ds, ranged);
    PlainTexts(ds);
    ItemsOfJoin(ds);
    var ts := Texts(ds, ranged);
    assert |ts| == |ds|;
    WrittenAreQuoted(ds, ranged);
    ArrayComplete(ts);
    ArrayOneLine(ts);
    BareArray(ts);
    ItemsOfJoin(ts);
    if ranged {
      TokensBack(ds);
    }
  }

  lemma {:induction false} PlainTexts(ds: seq<string>)
    ensures Texts(ds, false) == ds
  {
    if ds != [] {
      PlainTexts(ds[1..]);
    }
  }
}
