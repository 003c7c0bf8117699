/** Tunnels in a file written by hand: indented lines, comments, end comments and a connection part in front
    change nothing of what is read. */
module TunnelDress {
  import opened Wrappers
  import opened TomlStrings
  import opened TextLines
  import opened TomlText
  import opened TomlValues
  import InlineScan
  import InlineText
  import InlineRefines
  import opened Tunnels
  import opened TunnelText
  import opened TunnelRoundTrip
  import opened VisitorRoundTrip

  predicate AllSpaces(s: string) {
    forall i :: 0 <= i < |s| ==> IsSpace(s[i])
  }

  // ---- Lines that say nothing ----

  /** Spaces, or a comment behind spaces. */
  predicate SaysNothing(x: string) {
    exists n :: 0 <= n <= |x| && AllSpaces(x[..n]) && (n < |x| ==> x[n] == '#')
  }

  lemma {:induction false} LeadGone(lead: string, x: string)
    requires AllSpaces(lead)
    ensures TrimLeft(lead + x) == TrimLeft(x)
  {
    hide IsSpace;
    if lead == [] {
      assert lead + x == x;
    } else {
      assert (lead + x)[0] == lead[0] && (lead + x)[1..] == lead[1..] + x;
      LeadGone(lead[1..], x);
    }
  }

  lemma HashIsNoSpace()
    ensures !IsSpace('#') && !IsSpace('[')
  {
  }

  // The first character of a line, spaces left out.
  lemma FirstChar(x: string, n: nat)
    requires n <= |x| && AllSpaces(x[..n]) && (n < |x| ==> !IsSpace(x[n]))
    ensures if n < |x| then Trim(x) != [] && Trim(x)[0] == x[n] else Trim(x) == ""
  {
    hide IsSpace, TrimLeft, TrimRight;
    assert x == x[..n] + x[n..];
    LeadGone(x[..n], x[n..]);
    if n < |x| {
      NoSpaceFirst(x[n..]);
      RightEnd("", x[n..]);
      assert "" + x[n..] == x[n..] && "" + TrimRight(x[n..]) == TrimRight(x[n..]);
    } else {
      EmptyTrims();
    }
  }

  lemma NothingSaid(st: Parsed, x: string)
    requires SaysNothing(x)
    ensures Open(st, x) == st
  {
    var n :| 0 <= n <= |x| && AllSpaces(x[..n]) && (n < |x| ==> x[n] == '#');
    HashIsNoSpace();
    FirstChar(x, n);
    hide IsSpace, Trim, RangeOf, KeyEnd, ValueText, HeaderName, StartValue;
  }

  lemma EmptyTrims()
    ensures TrimLeft("") == "" && TrimRight("") == ""
  {
  }

  // ---- A line with spaces and a comment around what it says ----

  lemma LeadIgnored(lead: string, x: string)
    requires AllSpaces(lead)
    ensures ReadLine(lead + x) == ReadLine(x)
  {
    hide TrimLeft, TrimRight, RangeOf, KeyEnd, ValueText, HeaderName, Unquoted;
    LeadGone(lead, x);
  }

  // Spaces are pieces too.
  function Plains(s: string): seq<Piece> {
    if s == [] then [] else [Plain(s[0])] + Plains(s[1..])
  }

  lemma {:induction false} PlainsText(s: string)
    requires AllSpaces(s)
    ensures PiecesText(Plains(s)) == s && GoodPieces(Plains(s))
  {
    if s != [] {
      SpaceIsPlain(s[0]);
      PlainsText(s[1..]);
      assert Plains(s)[1..] == Plains(s[1..]);
      assert s == [s[0]] + s[1..];
    }
  }

  lemma SpaceIsPlain(c: char)
    requires IsSpace(c)
    ensures c != '\"' && c != '\'' && c != '#'
  {
  }

  lemma {:induction false} PiecesJoin(a: seq<Piece>, b: seq<Piece>)
    requires GoodPieces(a) && GoodPieces(b) && (b != [] ==> b[0].Plain?)
    ensures GoodPieces(a + b) && PiecesText(a + b) == PiecesText(a) + PiecesText(b)
    decreases a
  {
    hide GoodPiece, PieceText;
    if a == [] {
      assert a + b == b;
    } else {
      var all := a + b;
      assert all[0] == a[0] && all[1..] == a[1..] + b;
      PiecesJoin(a[1..], b);
      assert |a| > 1 ==> all[1] == a[1];
      assert |a| == 1 && b != [] ==> all[1] == b[0];
      assert PieceText(a[0]) + (PiecesText(a[1..]) + PiecesText(b)) == PieceText(a[0]) + PiecesText(a[1..]) + PiecesText(b);
    }
  }

  lemma SpaceFirst(ps: seq<Piece>)
    requires GoodPieces(ps)
    ensures GoodPieces([Plain(' ')] + ps) && PiecesText([Plain(' ')] + ps) == " " + PiecesText(ps)
  {
    hide PiecesText;
    var qs := [Plain(' ')] + ps;
    assert qs[1..] == ps && qs[0] == Plain(' ');
    PiecesFirst(qs);
  }

  lemma PiecesFirst(ps: seq<Piece>)
    requires ps != []
    ensures PiecesText(ps) == PieceText(ps[0]) + PiecesText(ps[1..])
  {
  }

  // The space behind the sign, the value, and the spaces in front of its comment.
  lemma AroundValue(ps: seq<Piece>, gap: string) returns (qs: seq<Piece>)
    requires GoodPieces(ps) && AllSpaces(gap)
    ensures GoodPieces(qs) && PiecesText(qs) == " " + PiecesText(ps) + gap
  {
    PlainsText(gap);
    assert Plains(gap) != [] ==> Plains(gap)[0].Plain?;
    hide GoodPieces, PiecesText, AllSpaces;
    PiecesJoin(ps, Plains(gap));
    SpaceFirst(ps + Plains(gap));
    qs := [Plain(' ')] + (ps + Plains(gap));
    assert " " + (PiecesText(ps) + gap) == " " + PiecesText(ps) + gap;
  }

  lemma SpacesAround(t: string, gap: string)
    requires Tight(t) && AllSpaces(gap)
    ensures Trim(" " + t + gap) == t
  {
    hide IsSpace;
    SpaceIsSpace();
    assert AllSpaces(" ");
    assert " " + t + gap == " " + (t + gap);
    LeadGone(" ", t + gap);
    assert t + gap != [] && (t + gap)[0] == t[0];
    TailGone(t, gap);
  }

  lemma {:induction false} TailGone(t: string, gap: string)
    requires Tight(t) && AllSpaces(gap)
    ensures TrimRight(t + gap) == t
    decreases |gap|
  {
    hide IsSpace;
    if gap == [] {
      assert t + gap == t;
    } else {
      var s := t + gap;
      assert s[|s| - 1] == gap[|gap| - 1] && s[..|s| - 1] == t + gap[..|gap| - 1];
      TailGone(t, gap[..|gap| - 1]);
    }
  }

  /** The value of a line, whatever spaces and comment stand behind it. */
  lemma ValueStays(ps: seq<Piece>, gap: string, note: string)
    requires GoodPieces(ps) && Tight(PiecesText(ps)) && AllSpaces(gap)
    ensures ValueText(" " + PiecesText(ps) + gap + "#" + note) == PiecesText(ps)
    ensures ValueText(" " + PiecesText(ps)) == PiecesText(ps)
  {
    hide PiecesText, GoodPieces, Tight, Trim, AllSpaces, ValueText;
    var t := PiecesText(ps);
    var qs := AroundValue(ps, gap);
    NoteLeftOut(qs, note);
    SpacesAround(t, gap);
    NoSpaces();
    var rs := AroundValue(ps, "");
    NoteLeftOut(rs, "");
    SpacesAround(t, "");
    assert " " + t + "" == " " + t;
  }

  lemma NoSpaces()
    ensures AllSpaces("")
  {
  }

  lemma TripleFirst(v: string)
    ensures StartsWith(v, 0, "\"\"\"") ==> |v| >= 3 && v[0] == '\"' && v[1] == '\"' && v[2] == '\"'
    ensures StartsWith(v, 0, "'''") ==> |v| >= 3 && v[0] == '\'' && v[1] == '\'' && v[2] == '\''
  {
    if |v| >= 3 {
      assert v[0..3][0] == v[0] && v[0..3][1] == v[1] && v[0..3][2] == v[2];
    }
  }

  lemma StringStart(q: char, body: string, next: string)
    requires if body == [] then next == [] || next[0] != q else body[0] != q
    ensures var v := [q] + body + [q] + next;
            v[0] == q && |v| >= 2 && (|v| >= 3 ==> !(v[1] == q && v[2] == q))
  {
    var v := [q] + body + [q] + next;
    if body != [] {
      assert v[1] == body[0];
    } else {
      assert v[1] == q && (next != [] ==> v[2] == next[0]);
    }
  }

  lemma PieceStart(p: Piece, next: string)
    requires GoodPiece(p)
    requires (next != [] && p == Basic("") ==> next[0] != '\"') && (next != [] && p == Literal("") ==> next[0] != '\'')
    ensures Delim(PieceText(p) + next) == ""
  {
    hide BasicBody, StartsWith;
    TripleFirst(PieceText(p) + next);
    match p
    case Plain(c) =>
    case Basic(body) =>
      BodyFirst(body);
      StringStart('\"', body, next);
      assert PieceText(p) == ['\"'] + body + ['\"'];
    case Literal(body) =>
      assert body != [] ==> body[0] in body;
      StringStart('\'', body, next);
      assert PieceText(p) == ['\''] + body + ['\''];
  }

  // A value in pieces does not start a string over several lines.
  lemma NotThreeQuotes(ps: seq<Piece>, post: string)
    requires ps != [] && GoodPieces(ps) && (post != [] ==> !IsQuote(post[0]))
    ensures !LeftOpen(PiecesText(ps) + post)
  {
    hide GoodPiece, Contains, PieceText, Delim;
    BehindPiece(ps, post);
    var next := PiecesText(ps[1..]) + post;
    assert PiecesText(ps) + post == PieceText(ps[0]) + next;
    PieceStart(ps[0], next);
  }

  lemma BodyFirst(body: string)
    requires BasicBody(body)
    ensures body != [] ==> body[0] != '\"'
  {
  }

  /** The line of a key and a value in pieces, indented, with spaces and a comment behind. */
  datatype Dress = Dress(lead: string, key: string, value: seq<Piece>, gap: string, note: string)

  ghost predicate Fits(d: Dress) {
    && AllSpaces(d.lead) && AllSpaces(d.gap) && BareKey(d.key)
    && GoodPieces(d.value) && Tight(PiecesText(d.value))
  }

  function PlainLine(d: Dress): string {
    d.key + " = " + PiecesText(d.value)
  }

  function DressedLine(d: Dress): string {
    d.lead + (d.key + " = " + (PiecesText(d.value) + d.gap + "#" + d.note))
  }

  // What is read of a line whose value ends in front of `post`; only spaces follow.
  lemma LineIs(st: Parsed, key: string, ps: seq<Piece>, post: string, v: string)
    requires st.mode.Ready? && BareKey(key) && GoodPieces(ps) && Tight(PiecesText(ps)) && (post != [] ==> !IsQuote(post[0]))
    requires v != [] && v[0] == PiecesText(ps)[0] && TrimRight(v) == PiecesText(ps) + post
    requires ValueText(" " + (PiecesText(ps) + post)) == PiecesText(ps)
    requires st.cur.Some? || (PiecesText(ps)[0] != '{' && PiecesText(ps)[0] != '[')
    ensures Open(st, key + " = " + v) == Gather(st, key, PiecesText(ps))
  {
    hide GoodPieces, PiecesText, ReadLine, ValueText, TrimRight, TrimLeft, LeftOpen, OpenDepth, Gather, IsSpace, BareKey;
    var t := PiecesText(ps);
    AssignLineReads(key, v);
    NoSpaceFirst(v);
    PiecesNotEmpty(ps);
    NotThreeQuotes(ps, post);
    FirstIs(t);
  }

  lemma FirstIs(t: string)
    requires t != []
    ensures StartsWith(t, 0, "{") <==> t[0] == '{'
  {
    assert t[0..1] == [t[0]];
  }

  lemma PiecesNotEmpty(ps: seq<Piece>)
    ensures PiecesText(ps) != [] ==> ps != []
  {
  }

  lemma PlainIs(st: Parsed, d: Dress)
    requires Fits(d) && st.mode.Ready?
    requires st.cur.Some? || (PiecesText(d.value)[0] != '{' && PiecesText(d.value)[0] != '[')
    ensures Open(st, PlainLine(d)) == Gather(st, d.key, PiecesText(d.value))
  {
    hide GoodPieces, PiecesText, ValueText, TrimRight, Open, Gather, BareKey, IsSpace;
    var t := PiecesText(d.value);
    NoSpaces();
    ValueStays(d.value, "", "");
    TailGone(t, "");
    assert t + "" == t;
    LineIs(st, d.key, d.value, "", t);
  }

  lemma EndOfNote(note: string)
    ensures TrimRight("#" + note) != [] && TrimRight("#" + note) == "#" + TrimRight("#" + note)[1..]
  {
    hide IsSpace;
    HashIsNoSpace();
    RightEnd("", "#" + note);
    assert "" + ("#" + note) == "#" + note && "" + TrimRight("#" + note) == TrimRight("#" + note);
  }

  lemma DressedIs(st: Parsed, d: Dress)
    requires Fits(d) && st.mode.Ready?
    requires st.cur.Some? || (PiecesText(d.value)[0] != '{' && PiecesText(d.value)[0] != '[')
    ensures Open(st, DressedLine(d)) == Gather(st, d.key, PiecesText(d.value))
  {
    hide GoodPieces, PiecesText, ValueText, TrimRight, Gather, BareKey, ReadLine, StartValue, IsSpace;
    var t, rest := PiecesText(d.value), "#" + d.note;
    var v := t + d.gap + rest;
    assert t + d.gap + "#" + d.note == v;
    LeadIgnored(d.lead, d.key + " = " + v);
    HashIsNoSpace();
    RightEnd(t + d.gap, rest);
    EndOfNote(d.note);
    var note' := TrimRight(rest)[1..];
    var post := d.gap + "#" + note';
    assert t + d.gap + ("#" + note') == t + post;
    ValueStays(d.value, d.gap, note');
    assert " " + (t + post) == " " + t + d.gap + "#" + note';
    GapFirst(d.gap, note');
    LineIs(st, d.key, d.value, post, v);
  }

  lemma GapFirst(gap: string, note: string)
    requires AllSpaces(gap)
    ensures gap + "#" + note != [] && !IsQuote((gap + "#" + note)[0])
  {
    if gap != [] {
      SpaceIsPlain(gap[0]);
      assert (gap + "#" + note)[0] == gap[0];
    }
  }

  // ---- Whole files ----

  /** A setting or a header of the connection part. */
  ghost predicate ConnectionLine(x: string) {
    || (exists d :: Fits(d) && PiecesText(d.value)[0] != '{' && PiecesText(d.value)[0] != '['
                    && (x == PlainLine(d) || x == DressedLine(d)))
    || (exists n :: 0 <= n < |x| && AllSpaces(x[..n]) && x[n] == '[' && Trim(x) != PROXY_HEAD && Trim(x) != VISITOR_HEAD)
  }

  lemma HeaderIgnored(st: Parsed, x: string, n: nat)
    requires n < |x| && AllSpaces(x[..n]) && x[n] == '[' && Trim(x) != PROXY_HEAD && Trim(x) != VISITOR_HEAD
    requires st.cur.None? && st.prefix == ""
    ensures Open(st, x) == st
  {
    hide IsSpace, Trim, KeyEnd, ValueText, HeaderName, StartValue, BelowTunnel;
    HashIsNoSpace();
    FirstChar(x, n);
    var line := Trim(x);
    assert line[0] == '[';
    NoRange(line);
  }

  lemma ConnectionIgnored(st: Parsed, x: string)
    requires ConnectionLine(x) && st.mode.Ready? && st.cur.None? && st.prefix == ""
    ensures Open(st, x) == st
  {
    hide Open, PlainLine, DressedLine, BareKey, GoodPieces, AllSpaces, PiecesText, Trim, BracketDepth, IsSpace;
    if n :| 0 <= n < |x| && AllSpaces(x[..n]) && x[n] == '[' && Trim(x) != PROXY_HEAD && Trim(x) != VISITOR_HEAD {
      HeaderIgnored(st, x, n);
    } else {
      var d :| Fits(d) && PiecesText(d.value)[0] != '{' && PiecesText(d.value)[0] != '['
               && (x == PlainLine(d) || x == DressedLine(d));
      PlainIs(st, d);
      DressedIs(st, d);
    }
  }

  /** A line that may be added: one that says nothing or, in front of the first block, one of the connection part. */
  ghost predicate Added(st: Parsed, x: string) {
    SaysNothing(x) || (st.cur.None? && st.prefix == "" && ConnectionLine(x))
  }

  /** The same lines, with lines added where no value is open, and settings of blocks indented or with an end
      comment. */
  ghost predicate Dressed(st: Parsed, lines: seq<string>, dressed: seq<string>)
    decreases |dressed|
  {
    if dressed == [] then lines == []
    else
      || (lines != [] && dressed[0] == lines[0] && Dressed(Step(st, lines[0]), lines[1..], dressed[1..]))
      || (lines != [] && st.mode.Ready? && st.cur.Some? && (exists d :: Fits(d) && lines[0] == PlainLine(d) && dressed[0] == DressedLine(d))
          && Dressed(Step(st, lines[0]), lines[1..], dressed[1..]))
      || (st.mode.Ready? && Added(st, dressed[0]) && Dressed(st, lines, dressed[1..]))
  }

  lemma {:induction false} DressedFeeds(st: Parsed, lines: seq<string>, dressed: seq<string>)
    requires Dressed(st, lines, dressed)
    ensures Feed(st, dressed) == Feed(st, lines)
    decreases |dressed|
  {
    hide Step, Open, PlainLine, DressedLine, Fits, SaysNothing, ConnectionLine;
    if dressed != [] {
      var x := dressed[0];
      if st.mode.Ready? && Added(st, x) && Dressed(st, lines, dressed[1..]) {
        AddedIgnored(st, x);
        DressedFeeds(st, lines, dressed[1..]);
      } else {
        var y := lines[0];
        if x != y {
          var d :| Fits(d) && y == PlainLine(d) && x == DressedLine(d);
          SameStep(st, d);
        }
        DressedFeeds(Step(st, y), lines[1..], dressed[1..]);
      }
    }
  }

  lemma AddedIgnored(st: Parsed, x: string)
    requires st.mode.Ready? && Added(st, x)
    ensures Step(st, x) == st
  {
    hide Open, SaysNothing, ConnectionLine;
    if SaysNothing(x) {
      NothingSaid(st, x);
    } else {
      ConnectionIgnored(st, x);
    }
  }

  lemma SameStep(st: Parsed, d: Dress)
    requires Fits(d) && st.mode.Ready? && st.cur.Some?
    ensures Step(st, DressedLine(d)) == Step(st, PlainLine(d))
  {
    hide Open, Fits, PlainLine, DressedLine, PiecesText;
    PlainIs(st, d);
    DressedIs(st, d);
  }

  /** A file that says the same as a written one reads as the same tunnels and visitors: with a connection part
      in front, and with comments, blank lines, indentation and end comments anywhere between values. */
  lemma DressedFile(ps: seq<Tunnel>, vs: seq<Visitor>, text: string)
    requires forall i :: 0 <= i < |ps| ==> Normal(ps[i])
    requires forall i :: 0 <= i < |vs| ==> NormalVisitor(vs[i])
    requires !HasArray(WithoutMark(text))
    requires Dressed(START, Lines(WithoutMark(FileText(ProxyTexts(ps) + VisitorTexts(vs)))), Lines(WithoutMark(text)))
    ensures var out := ReadText(text);
            && out.Some? && |out.value.proxies| == |ps| && |out.value.visitors| == |vs|
            && (forall i :: 0 <= i < |ps| ==> ProxyFromBlock(out.value.proxies[i], ps[i].uid) == ps[i])
            && forall i :: 0 <= i < |vs| ==> VisitorFromBlock(out.value.visitors[i], vs[i].uid) == vs[i]
  {
    hide Normal, NormalVisitor, Feed, Dressed, HasArray, Lines, WithoutMark, FileText, ProxyTexts, VisitorTexts, ProxyFromBlock,
      VisitorFromBlock, Finish, Crlf, FrpSees, VisitorSeen;
    FileRoundTrip(ps, vs);
    DressedFeeds(START, Lines(WithoutMark(FileText(ProxyTexts(ps) + VisitorTexts(vs)))), Lines(WithoutMark(text)));
  }

  // ---- Sub-tables ----

  lemma BareWord(t: string)
    requires t != [] && forall k :: 0 <= k < |t| ==> !IsQuote(t[k]) && t[k] != '#' && !IsSpace(t[k])
    ensures ValueText(t) == t
  {
    hide IsSpace;
    WordGoesBy(t, 0);
    assert t[..|t|] == t;
    assert !IsSpace(t[0]) && !IsSpace(t[|t| - 1]);
  }

  lemma HeaderNamed(name: string, path: seq<string>)
    requires path != [] && InlineRefines.PlainPath(path) && name == InlineText.Dotted(path)
    ensures HeaderName("[" + name + "]") == name
  {
    hide IsSpace, ValueText, InlineText.Dotted, InlineScan.Segments, InlineScan.PlainSegments;
    var line := "[" + name + "]";
    InlineRefines.DottedChars(path);
    forall k | 0 <= k < |line| ensures !IsQuote(line[k]) && line[k] != '#' && !IsSpace(line[k]) {
      if 0 < k < |line| - 1 {
        assert line[k] == name[k - 1];
        BareNotSpace(line[k]);
      }
      HashIsNoSpace();
      BracketIsNoSpace();
    }
    BareWord(line);
    InlineRefines.DottedIsPath(path);
    BracketsOff(name);
  }

  lemma BracketIsNoSpace()
    ensures !IsSpace(']')
  {
  }

  lemma BracketsOff(name: string)
    requires name != [] && BareChar(name[0]) && BareChar(name[|name| - 1])
    ensures var line := "[" + name + "]";
            && !StartsWith(line, 0, "[[") && StartsWith(line, 0, "[") && line[1..] == name + "]"
            && !EndsWith(name + "]", "]]") && EndsWith(name + "]", "]") && (name + "]")[..|name|] == name
  {
    var line, s := "[" + name + "]", name + "]";
    assert line[0..2][1] == line[1] == name[0];
    assert s[|s| - 2..][0] == s[|s| - 2] == name[|name| - 1];
    assert line[0..1] == "[" && s[|s| - 1..] == "]";
  }

  lemma DottedBehind(first: string, sub: seq<string>)
    requires sub != []
    ensures InlineText.Dotted([first] + sub) == first + "." + InlineText.Dotted(sub)
  {
    assert ([first] + sub)[1..] == sub;
  }

  lemma SubName(visitors: bool, rest: string)
    requires rest != [] && forall k :: 0 <= k < |rest| ==> BareChar(rest[k])
    ensures BelowTunnel((if visitors then "visitors." else "proxies.") + rest) == Some(rest)
  {
    var head := if visitors then "visitors." else "proxies.";
    var name := head + rest;
    assert name[0..|head|] == head && name[|head|..] == rest;
    if visitors {
      assert name[0] == 'v';
      Differ(name, "proxies.");
    }
    forall k | |head| <= k < |name| ensures !LineBreak(name[k]) {
      assert name[k] == rest[k - |head|];
      BareNotSpace(name[k]);
    }
  }

  lemma HeadOf(visitors: bool, sub: seq<string>)
    requires sub != [] && InlineRefines.PlainPath(sub)
    ensures var name := InlineText.Dotted(sub);
            ReadLine("[" + (if visitors then "visitors." else "proxies.") + name + "]") == SectionLine(Some(name))
  {
    hide InlineText.Dotted, ReadLine, HeaderName, BareChar;
    var name := InlineText.Dotted(sub);
    var head := (if visitors then "visitors." else "proxies.") + name;
    var path := [if visitors then "visitors" else "proxies"] + sub;
    DottedBehind(path[0], sub);
    FirstIsPlain(visitors, sub);
    InlineRefines.DottedChars(sub);
    InlineRefines.DottedChars(path);
    HeaderNamed(head, path);
    SubName(visitors, name);
    SectionRead(head);
    assert "[" + (if visitors then "visitors." else "proxies.") + name + "]" == "[" + head + "]";
  }

  lemma StoreBelow(st: Parsed, name: string, key: string, raw: string)
    requires st.mode.Ready?
    ensures Store(st.(prefix := name + "."), key, raw) == Store(st.(prefix := ""), name + "." + key, raw).(prefix := name + ".")
  {
    hide PutLast;
    assert "" + (name + "." + key) == name + "." + key;
  }

  /** A setting in a sub-table of the block being read is the setting of the dotted key in the block itself. */
  lemma SubTableReads(st: Parsed, visitors: bool, sub: seq<string>, d: Dress)
    requires st.mode.Ready? && st.cur.Some? && sub != [] && InlineRefines.PlainPath(sub)
    requires Fits(d) && !OpenArray(PiecesText(d.value))
    ensures var name := InlineText.Dotted(sub);
            Feed(st, ["[" + (if visitors then "visitors." else "proxies.") + name + "]", PlainLine(d)])
              == Store(st.(prefix := ""), name + "." + d.key, PiecesText(d.value)).(prefix := name + ".")
  {
    hide InlineText.Dotted, PlainLine, Fits, PiecesText, OpenArray, ReadLine, Store, Feed;
    var name := InlineText.Dotted(sub);
    var head := "[" + (if visitors then "visitors." else "proxies.") + name + "]";
    HeadOf(visitors, sub);
    FeedTwo(st, head, PlainLine(d));
    PlainIs(st.(prefix := name + "."), d);
    StoreBelow(st, name, d.key, PiecesText(d.value));
  }

  lemma FirstIsPlain(visitors: bool, sub: seq<string>)
    requires InlineRefines.PlainPath(sub)
    ensures InlineRefines.PlainPath([if visitors then "visitors" else "proxies"] + sub)
  {
  }

  lemma FeedTwo(st: Parsed, a: string, b: string)
    ensures Feed(st, [a, b]) == Step(Step(st, a), b)
  {
    hide Step;
    assert [a, b][1..] == [b] && [b][1..] == [];
    var mid := Step(st, a);
    assert Feed(mid, [b]) == Feed(Step(mid, b), []);
  }

  lemma SectionRead(head: string)
    requires head != [] && BareChar(head[0]) && BareChar(head[|head| - 1]) && HeaderName("[" + head + "]") == head
    ensures ReadLine("[" + head + "]") == SectionLine(BelowTunnel(head))
  {
    hide KeyEnd, ValueText, HeaderName, IsSpace, BelowTunnel, RangeOf, Trim;
    var line := "[" + head + "]";
    HashIsNoSpace();
    BracketIsNoSpace();
    TrimTight(line);
    NoRange(line);
    assert line[1] == head[0] && PROXY_HEAD[1] == '[' && VISITOR_HEAD[1] == '[' && END_TEXT[0] == '{';
  }

  lemma NoRange(line: string)
    requires line != [] && line[0] == '['
    ensures RangeOf(line).None?
  {
    Differ(line, PAIR_HEAD);
    Differ(line, ONE_HEAD);
  }
}
