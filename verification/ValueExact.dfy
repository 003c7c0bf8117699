/** Which values survive being written to a block and read back: those that end where their text ends,
    and no others. */
module ValueExact {
  import opened Wrappers
  import opened TomlStrings
  import opened TextLines
  import opened TomlText
  import opened TomlValues
  import opened Tunnels
  import opened TunnelText
  import opened ValueReads
  import opened TunnelRoundTrip

  // ---- Lengths ----

  /** Characters of the lines, line ends included. */
  function TotalLength(lines: seq<string>): nat {
    if lines == [] then 0 else |lines[0]| + 1 + TotalLength(lines[1..])
  }

  lemma {:induction false} LinesLength(t: string)
    ensures TotalLength(Lines(t)) <= |t| + 1
    decreases |t|
  {
    hide LineEnd, Lines;
    var n := LineEnd(t);
    LinesUnfold(t);
    if n == |t| {
      assert [t][1..] == [];
    } else {
      LinesLength(AfterBreak(t, n));
      assert ([t[..n]] + Lines(AfterBreak(t, n)))[1..] == Lines(AfterBreak(t, n));
    }
  }

  lemma {:induction false} TrimShortens(s: string)
    ensures |TrimLeft(s)| <= |s| && |TrimRight(s)| <= |s|
    ensures |TrimLeft(s)| == |s| ==> TrimLeft(s) == s
    ensures |TrimRight(s)| == |s| ==> TrimRight(s) == s
    decreases |s|
  {
    hide IsSpace;
    if s != [] {
      TrimShortens(s[1..]);
      TrimShortens(s[..|s| - 1]);
    }
  }

  lemma TrimLength(s: string)
    ensures |Trim(s)| <= |s| && (|Trim(s)| == |s| ==> Trim(s) == s)
  {
    hide TrimLeft, TrimRight;
    TrimShortens(s);
    TrimShortens(TrimLeft(s));
  }

  lemma ValueLength(v: string)
    ensures |ValueText(v)| <= |v| && (|ValueText(v)| == |v| ==> ValueText(v) == v)
  {
    hide Trim, CommentAt;
    var c := CommentAt(v, 0, None);
    TrimLength(v);
    if c <= |v| {
      TrimLength(v[..c]);
    }
  }

  lemma {:induction false} CommentInside(v: string, i: nat, quote: Option<char>)
    ensures CommentAt(v, i, quote) <= |v|
    decreases |v| - i
  {
    hide MultilineEnd;
    if i < |v| {
      if quote.Some? {
        CommentInside(v, i + 2, quote);
        CommentInside(v, i + 1, if v[i] == quote.value then None else quote);
      } else if StartsWith(v, i, "\"\"\"") || StartsWith(v, i, "'''") {
        var e := MultilineClose(v[i..]);
        if e.Some? {
          CommentInside(v, i + e.value, None);
        }
      } else {
        CommentInside(v, i + 1, Some(v[i]));
        CommentInside(v, i + 1, None);
      }
    }
  }

  // ---- A short value stays short ----

  function BlocksAt(st: Parsed, visitors: bool): seq<Block> {
    if visitors then st.visitors else st.proxies
  }

  /** The key has a value shorter than `n` in that block. */
  predicate Short(st: Parsed, visitors: bool, m: nat, k: string, n: nat) {
    var bs := BlocksAt(st, visitors);
    m < |bs| && k in bs[m].raw && |bs[m].raw[k]| < n
  }

  /** Characters of the value being read, a line end included. */
  function Held(mode: Mode): nat {
    match mode
    case InString(_, _, raw) => |raw| + 1
    case InArray(_, raw) => |raw| + 1
    case _ => 0
  }

  lemma StoreShort(st: Parsed, key: string, raw: string, visitors: bool, m: nat, k: string, n: nat)
    requires Short(st, visitors, m, k, n) && |raw| < n
    ensures Short(Store(st, key, raw), visitors, m, k, n) && Store(st, key, raw).mode.Ready?
  {
    hide Unquote;
  }

  lemma GatherShort(st: Parsed, key: string, raw: string, visitors: bool, m: nat, k: string, n: nat)
    requires Short(st, visitors, m, k, n) && |raw| < n
    ensures Short(Gather(st, key, raw), visitors, m, k, n) && Held(Gather(st, key, raw).mode) <= |raw| + 1
  {
    hide Store, OpenArray;
    StoreShort(st, key, raw, visitors, m, k, n);
  }

  lemma OpenShort(st: Parsed, text: string, visitors: bool, m: nat, k: string, n: nat)
    requires Short(st, visitors, m, k, n) && |text| < n && st.mode.Ready?
    ensures Short(Open(st, text), visitors, m, k, n) && Held(Open(st, text).mode) <= |text| + 1
  {
    hide ReadLine, Gather, LeftOpen, OpenDepth;
    LineTexts(text);
    match ReadLine(text)
    case AssignLine(a, value, tail) => GatherShort(st, a.key, a.raw, visitors, m, k, n);
    case _ =>
  }

  lemma LineTexts(text: string)
    ensures ReadLine(text).AssignLine? ==> |ReadLine(text).assign.raw| <= |text| && |ReadLine(text).tail| <= |text|
  {
    hide RangeOf, KeyEnd, ValueText, Trim, Behind, HeaderName, BelowTunnel, Unquoted;
    TrimLength(text);
    var eq := KeyEnd(Trim(text), 0, None);
    if eq.Some? {
      ValueLength(Trim(text)[eq.value + 1..]);
      BehindLength(text, eq.value);
    }
  }

  lemma BehindLength(text: string, eq: nat)
    ensures |Behind(text, eq)| <= |text|
  {
    hide TrimLeft;
    TrimShortens(text);
    if eq < |TrimLeft(text)| {
      TrimShortens(TrimLeft(text)[eq + 1..]);
    }
  }

  lemma StepShort(st: Parsed, text: string, visitors: bool, m: nat, k: string, n: nat)
    requires Short(st, visitors, m, k, n) && Held(st.mode) + |text| < n
    ensures Short(Step(st, text), visitors, m, k, n) && Held(Step(st, text).mode) <= Held(st.mode) + |text| + 1
  {
    hide Open, Gather, Contains, OpenDepth, Store, ValueText;
    ValueLength(text);
    match st.mode
    case Ready => OpenShort(st, text, visitors, m, k, n);
    case InString(key, _, raw) => StoreShort(st, key, raw + "\n" + text, visitors, m, k, n);
    case InArray(key, raw) =>
      var more := ValueText(text);
      GatherShort(st, key, if more == [] then raw else raw + "\n" + more, visitors, m, k, n);
    case InTable(_) =>
  }

  lemma {:induction false} FeedShort(st: Parsed, lines: seq<string>, visitors: bool, m: nat, k: string, n: nat)
    requires Short(st, visitors, m, k, n) && Held(st.mode) + TotalLength(lines) <= n
    ensures Short(Feed(st, lines), visitors, m, k, n)
    decreases |lines|
  {
    hide Step, Short;
    if lines != [] {
      StepShort(st, lines[0], visitors, m, k, n);
      FeedShort(Step(st, lines[0]), lines[1..], visitors, m, k, n);
    }
  }

  // ---- A value stored before the end of its text is not the value written ----

  lemma EarlyIsLost(st: Parsed, bs: seq<Block>, b: Block, key: string, raw: string, text: string, lines: seq<string>)
    requires Reading(st, bs, b) && |text| < |raw| && TotalLength(lines) <= |raw|
    ensures Feed(Store(st, key, text), lines) != Store(st, key, raw)
  {
    hide Feed, Put;
    StoreFills(st, bs, b, key, text);
    StoreFills(st, bs, b, key, raw);
    PutValue(b, Assign(key, text));
    PutValue(b, Assign(key, raw));
    FeedShort(Store(st, key, text), lines, st.cur.value, |bs|, key, |raw|);
  }

  lemma PutValue(b: Block, a: Assign)
    ensures a.key in Put(b, a).raw && Put(b, a).raw[a.key] == a.raw
  {
  }

  // A value stored is the value written only if it is the same text.
  lemma StoredIs(st: Parsed, bs: seq<Block>, b: Block, key: string, x: string, y: string)
    requires Reading(st, bs, b)
    ensures Store(st, key, x) == Store(st, key, y) <==> x == y
  {
    hide Put;
    StoreFills(st, bs, b, key, x);
    StoreFills(st, bs, b, key, y);
    PutValue(b, Assign(key, x));
    PutValue(b, Assign(key, y));
    assert x != y ==> (bs + [Put(b, Assign(key, x))])[|bs|] != (bs + [Put(b, Assign(key, y))])[|bs|];
  }

  lemma StringNext(st: Parsed, key: string, delim: string, raw: string, x: string)
    ensures Step(st.(mode := InString(key, delim, raw)), x)
         == if Contains(x, delim) then Store(st, key, raw + "\n" + x) else st.(mode := InString(key, delim, raw + "\n" + x))
  {
    hide Contains, Open, Store;
    StoreMode(st, InString(key, delim, raw), key, raw + "\n" + x);
  }

  lemma {:induction false} StringExact(st: Parsed, bs: seq<Block>, b: Block, key: string, delim: string, text: string,
                                       lines: seq<string>, raw: string)
    requires Reading(st, bs, b) && |text| + TotalLength(lines) <= |raw|
    requires Feed(st.(mode := InString(key, delim, text)), lines) == Store(st, key, raw)
    ensures UpTo(delim, lines) && raw == text + "\n" + JoinLines(lines)
    decreases |lines|
  {
    hide Contains, Step, Store;
    StoreMode(st, Ready, key, raw);
    assert lines != [];
    var x, rest := lines[0], lines[1..];
    assert lines == [x] + rest;
    StringNext(st, key, delim, text, x);
    JoinFirst(x, rest);
    if Contains(x, delim) {
      assert rest == [] by { EarlyRest(st, bs, b, key, raw, text + "\n" + x, rest); }
      StoredIs(st, bs, b, key, text + "\n" + x, raw);
    } else {
      StringExact(st, bs, b, key, delim, text + "\n" + x, rest, raw);
      assert text + "\n" + x + "\n" + JoinLines(rest) == text + "\n" + (x + "\n" + JoinLines(rest));
    }
  }

  lemma EarlyRest(st: Parsed, bs: seq<Block>, b: Block, key: string, raw: string, text: string, rest: seq<string>)
    requires Reading(st, bs, b) && |text| + TotalLength(rest) <= |raw| && Feed(Store(st, key, text), rest) == Store(st, key, raw)
    ensures rest == []
  {
    hide Feed, Store, Reading;
    if rest != [] {
      EarlyIsLost(st, bs, b, key, raw, text, rest);
    }
  }

  // ---- Arrays ----

  lemma ArrayNext(st: Parsed, key: string, text: string, x: string)
    requires OpenArray(text)
    ensures var more := ValueText(x);
            Step(Gather(st, key, text), x) == Gather(st, key, if more == [] then text else text + "\n" + more)
  {
    hide Store, Open, ValueText, OpenArray;
    var more := ValueText(x);
    StoreMode(st, InArray(key, text), key, if more == [] then text else text + "\n" + more);
  }

  lemma StillOpen(st: Parsed, key: string, text: string, raw: string)
    requires OpenArray(text)
    ensures Feed(Gather(st, key, text), []) != Store(st, key, raw)
  {
    hide Store, OpenArray;
    StoreMode(st, Ready, key, raw);
  }

  // A text shorter than the value cannot become it.
  lemma {:induction false} ArrayLost(st: Parsed, bs: seq<Block>, b: Block, key: string, text: string, lines: seq<string>, raw: string)
    requires Reading(st, bs, b) && |text| + TotalLength(lines) < |raw|
    ensures Feed(Gather(st, key, text), lines) != Store(st, key, raw)
    decreases |lines|
  {
    hide Store, Step, OpenArray, ValueText, Reading;
    if !OpenArray(text) {
      EarlyIsLost(st, bs, b, key, raw, text, lines);
    } else if lines == [] {
      StillOpen(st, key, text, raw);
    } else {
      var x, rest := lines[0], lines[1..];
      ArrayNext(st, key, text, x);
      ValueLength(x);
      ArrayLost(st, bs, b, key, if ValueText(x) == [] then text else text + "\n" + ValueText(x), rest, raw);
    }
  }

  lemma {:induction false} ArrayExact(st: Parsed, bs: seq<Block>, b: Block, key: string, text: string, lines: seq<string>, raw: string)
    requires Reading(st, bs, b) && |text| + TotalLength(lines) <= |raw|
    requires Feed(Gather(st, key, text), lines) == Store(st, key, raw)
    ensures Closes(text, lines) && raw == JoinLines([text] + lines)
    decreases |lines|
  {
    hide Store, Step, OpenArray, ValueText, Reading, JoinLines;
    if !OpenArray(text) {
      EarlyRest(st, bs, b, key, raw, text, lines);
      FedNothing(Store(st, key, text));
      StoredIs(st, bs, b, key, text, raw);
      JoinFirst(text, []);
    } else {
      assert lines != [] by { StillOpen(st, key, text, raw); }
      var x, rest := lines[0], lines[1..];
      assert lines == [x] + rest;
      ArrayNext(st, key, text, x);
      ValueLength(x);
      var text' := if ValueText(x) == [] then text else text + "\n" + ValueText(x);
      assert ArrayLine(x) by { NotLost(st, bs, b, key, text', rest, raw); }
      ArrayExact(st, bs, b, key, text', rest, raw);
      JoinOver(text, x, rest);
    }
  }

  lemma NotLost(st: Parsed, bs: seq<Block>, b: Block, key: string, text: string, lines: seq<string>, raw: string)
    requires Reading(st, bs, b) && Feed(Gather(st, key, text), lines) == Store(st, key, raw)
    ensures |text| + TotalLength(lines) >= |raw|
  {
    hide Store, Gather, Reading, Feed;
    if |text| + TotalLength(lines) < |raw| {
      ArrayLost(st, bs, b, key, text, lines, raw);
    }
  }

  // ---- The value of the first line ----

  lemma FullValue(v: string)
    requires v != [] && |ValueText(" " + TrimRight(v))| == |v|
    ensures Complete(v) && ValueText(" " + TrimRight(v)) == v
  {
    hide CommentAt, TrimRight, TrimLeft, IsSpace;
    var t := TrimRight(v);
    var s := " " + t;
    var c := CommentAt(s, 0, None);
    CommentInside(s, 0, None);
    TrimShortens(v);
    TrimLength(s[..c]);
    assert c > 0;
    assert s[..c] == " " + t[..c - 1];
    SpaceGone(t[..c - 1]);
    TrimLength(t[..c - 1]);
    assert t[..|t|] == t;
    TrimmedTight(v);
  }

  lemma TrimmedTight(v: string)
    requires v != []
    ensures Trim(v) == v ==> Tight(v)
  {
    hide IsSpace;
    TrimShortens(v);
    TrimShortens(TrimLeft(v));
    if Trim(v) == v {
      LeftTight(v);
      RightTight(v);
    }
  }

  lemma LeftTight(v: string)
    requires v != [] && TrimLeft(v) == v
    ensures !IsSpace(v[0])
  {
    hide IsSpace;
    TrimShortens(v[1..]);
  }

  lemma RightTight(v: string)
    requires v != [] && TrimRight(v) == v
    ensures !IsSpace(v[|v| - 1])
  {
    hide IsSpace;
    TrimShortens(v[..|v| - 1]);
  }

  // ---- Exactly the whole values ----

  lemma {:induction false} JoinedLength(lines: seq<string>)
    requires lines != []
    ensures |JoinLines(lines)| + 1 == TotalLength(lines)
  {
    if |lines| > 1 {
      JoinedLength(lines[1..]);
    } else {
      assert lines[1..] == [];
    }
  }

  lemma {:induction false} LinesNoBreak(t: string)
    ensures forall i :: 0 <= i < |Lines(t)| ==> NoReturn(Lines(t)[i])
    decreases |t|
  {
    hide LineEnd, Lines, AfterBreak;
    LinesUnfold(t);
    if LineEnd(t) < |t| {
      LinesNoBreak(AfterBreak(t, LineEnd(t)));
    }
  }

  lemma LineStarts(st: Parsed, key: string, v: string, r: string)
    requires st.mode.Ready? && st.cur.Some?
    requires ReadLine(key + " = " + v) == AssignLine(Assign(key, r), Trim(v), TrimLeft(v))
    ensures Step(st, key + " = " + v)
         == if LeftOpen(Trim(v)) then st.(mode := InString(key, Delim(Trim(v)), TrimLeft(v))) else Gather(st, key, r)
  {
    hide ReadLine, Gather, LeftOpen, Trim, TrimLeft, Delim;
  }

  /** The text taken from the first line is no longer than the line, and the line itself if as long. */
  predicate Taken(v: string, r: string) {
    |r| <= |v| && (|r| == |v| && v != "" ==> r == v && Complete(v))
  }

  // What the first line of the key starts.
  lemma FirstStarts(st: Parsed, key: string, v: string) returns (r: string)
    requires BareKey(key) && st.mode.Ready? && st.cur.Some?
    ensures Step(st, key + " = " + v)
         == if LeftOpen(Trim(v)) then st.(mode := InString(key, Delim(Trim(v)), TrimLeft(v))) else Gather(st, key, r)
    ensures Taken(v, r)
  {
    hide ReadLine, Step, Gather, LeftOpen, Trim, TrimRight, TrimLeft, ValueText, IsSpace, Complete, BareKey, Delim;
    AnyLineReads(key, v);
    r := ReadLine(key + " = " + v).assign.raw;
    NoValue();
    FirstValue(v);
    LineStarts(st, key, v, r);
  }

  lemma FirstValue(v: string)
    ensures |ValueText(" " + TrimRight(v))| <= |v|
    ensures v != "" && |ValueText(" " + TrimRight(v))| == |v| ==> ValueText(" " + TrimRight(v)) == v && Complete(v)
  {
    hide CommentAt, TrimRight, TrimLeft, IsSpace, Complete;
    var t := TrimRight(v);
    var s := " " + t;
    var c := CommentAt(s, 0, None);
    CommentInside(s, 0, None);
    TrimShortens(v);
    if c > 0 {
      assert s[..c] == " " + t[..c - 1];
      SpaceGone(t[..c - 1]);
      TrimLength(t[..c - 1]);
    } else {
      NoValue();
      assert s[..c] == "";
    }
    if v != "" && |ValueText(s)| == |v| {
      FullValue(v);
    }
  }

  lemma OnlyWhole(st: Parsed, bs: seq<Block>, b: Block, key: string, raw: string)
    requires BareKey(key) && Reading(st, bs, b) && Feed(st, Lines(key + " = " + raw)) == Store(st, key, raw)
    ensures WholeValue(raw)
  {
    hide Lines, Step, Gather, Store, LeftOpen, Trim, TrimLeft, IsSpace, Complete, BareKey, Closes, UpTo, TotalLength, Feed, JoinLines;
    var ls := Lines(raw);
    var v, rest := ls[0], ls[1..];
    assert ls == [v] + rest;
    KeyNoBreak(key);
    LinesBehind(key + " = ", raw);
    FeedFirst(st, key + " = " + v, rest);
    var r := FirstStarts(st, key, v);
    LinesLength(raw);
    FirstLength(v, rest);
    LinesNoBreak(raw);
    NoReturnJoined(ls);
    TrimShortens(v);
    if LeftOpen(Trim(v)) {
      StringExact(st, bs, b, key, Delim(Trim(v)), TrimLeft(v), rest, raw);
      UpToSome(Delim(Trim(v)), rest);
      JoinedLength(rest);
      JoinFirst(v, rest);
      OpenFirst(v);
    } else {
      ArrayExact(st, bs, b, key, r, rest, raw);
      JoinedLength([r] + rest);
      FirstLength(r, rest);
      ClosesEmpty(rest);
      JoinFirst("", rest);
    }
  }

  lemma FirstLength(v: string, rest: seq<string>)
    ensures TotalLength([v] + rest) == |v| + 1 + TotalLength(rest)
  {
    assert ([v] + rest)[1..] == rest;
  }

  lemma OpenFirst(v: string)
    ensures LeftOpen(Trim(v)) && TrimLeft(v) == v ==> v != [] && !IsSpace(v[0])
  {
    hide IsSpace;
    NoValue();
    if v != [] && TrimLeft(v) == v {
      LeftTight(v);
    }
  }

  lemma ClosesEmpty(lines: seq<string>)
    ensures Closes("", lines) ==> lines == []
  {
  }

  /** A value written in a block is read back as it is written, and as nothing else, if and only if it
      ends where its text ends. */
  lemma ReadsBack(st: Parsed, bs: seq<Block>, b: Block, key: string, raw: string)
    requires BareKey(key) && Reading(st, bs, b)
    ensures Feed(st, Lines(key + " = " + raw)) == Store(st, key, raw) <==> WholeValue(raw)
  {
    hide Lines, Feed, Store, WholeValue, BareKey;
    if WholeValue(raw) {
      WholeReads(st, key, raw);
    }
    if Feed(st, Lines(key + " = " + raw)) == Store(st, key, raw) {
      OnlyWhole(st, bs, b, key, raw);
    }
  }
}
