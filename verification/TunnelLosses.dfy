/** Tunnels outside the normal form: what their text does to the file. */
module TunnelLosses {
  import opened Wrappers
  import opened TomlStrings
  import opened TextLines
  import opened TomlText
  import opened TomlValues
  import opened Tunnels
  import opened TunnelText
  import opened ValueReads
  import opened TunnelRoundTrip

  // ---- An array left open ----

  const LEFT_OPEN := "[1,"

  function WithExtra(p: Tunnel, key: string, raw: string): Tunnel {
    p.(settings := p.settings.(extras := p.settings.extras + [Extra(key, raw)]))
  }

  predicate NewKey(p: Tunnel, key: string) {
    BareKey(key) && key !in PROXY_KEYS && key != "proxies" && key != "visitors" &&
    forall i :: 0 <= i < |p.settings.extras| ==> p.settings.extras[i].key != key
  }

  lemma LeftOpenIs()
    ensures Complete(LEFT_OPEN) && NoBreak(LEFT_OPEN) && !LeftOpen(LEFT_OPEN) && OpenArray(LEFT_OPEN) && !WholeValue(LEFT_OPEN)
    ensures OpenArray(LEFT_OPEN + "\n" + PROXY_HEAD)
  {
    hide WholeValue, Brackets, CommentAt, Lines, Trim;
    OpenDepths();
    LeftOpenChars();
    WordComplete(LEFT_OPEN);
    assert LEFT_OPEN[0..3][0] == '[';
    OneLineIs(LEFT_OPEN);
    TrimTight(LEFT_OPEN);
    NotWhole();
  }

  lemma LeftOpenChars()
    ensures Tight(LEFT_OPEN) && NoBreak(LEFT_OPEN) && forall k :: 0 <= k < |LEFT_OPEN| ==> !IsQuote(LEFT_OPEN[k]) && LEFT_OPEN[k] != '#'
    ensures (LEFT_OPEN + "\n" + PROXY_HEAD)[0] == '['
  {
  }

  lemma NotWhole()
    requires Lines(LEFT_OPEN) == [LEFT_OPEN] && Trim(LEFT_OPEN) == LEFT_OPEN && !LeftOpen(LEFT_OPEN) && OpenArray(LEFT_OPEN)
    ensures !WholeValue(LEFT_OPEN)
  {
    hide Lines, Trim, LeftOpen, OpenArray, Complete;
    assert [LEFT_OPEN][1..] == [];
  }

  lemma OpenDepths()
    ensures BracketDepth(LEFT_OPEN) == 1 && BracketDepth(LEFT_OPEN + "\n" + PROXY_HEAD) == 1
  {
    var t := LEFT_OPEN + "\n" + PROXY_HEAD;
    assert t == "[1,\n[[proxies]]";
    assert Brackets(t, 14, None) == -1 + Brackets(t, 15, None);
    assert Brackets(t, 13, None) == -2;
    NoBrackets(t, 6, 13);
    assert Brackets(t, 4, None) == 2 + Brackets(t, 6, None);
    NoBrackets(t, 1, 4);
    NoBrackets(LEFT_OPEN, 1, 3);
  }

  lemma {:induction false} NoBrackets(s: string, i: nat, j: nat)
    requires i <= j <= |s| && forall k :: i <= k < j ==> !IsQuote(s[k]) && s[k] != '[' && s[k] != ']'
    ensures Brackets(s, i, None) == Brackets(s, j, None)
    decreases j - i
  {
    if i < j {
      NoBrackets(s, i + 1, j);
    }
  }

  // ---- Reading without a new header ----

  lemma StoreCounts(st: Parsed, key: string, raw: string)
    ensures |Store(st, key, raw).proxies| == |st.proxies|
  {
    hide Put;
  }

  lemma {:induction false} NoHeadKeeps(st: Parsed, lines: seq<string>)
    requires forall i :: 0 <= i < |lines| ==> !ReadLine(lines[i]).HeadLine?
    ensures |Feed(st, lines).proxies| == |st.proxies|
    decreases |lines|
  {
    hide Step, ReadLine;
    if lines != [] {
      StepKeeps(st, lines[0]);
      NoHeadKeeps(Step(st, lines[0]), lines[1..]);
    }
  }

  lemma StepKeeps(st: Parsed, text: string)
    requires !ReadLine(text).HeadLine?
    ensures |Step(st, text).proxies| == |st.proxies|
  {
    hide ReadLine, Store, OpenArray, LeftOpen, OpenDepth, Contains, ValueText;
    match st.mode
    case Ready =>
      if ReadLine(text).AssignLine? {
        StoreCounts(st, ReadLine(text).assign.key, ReadLine(text).assign.raw);
      }
    case InString(key, _, raw) => StoreCounts(st, key, raw + "\n" + text);
    case InArray(key, raw) => StoreCounts(st, key, if ValueText(text) == [] then raw else raw + "\n" + ValueText(text));
    case InTable(_) =>
  }

  lemma FinishKeeps(st: Parsed)
    ensures |Finish(st).proxies| == |st.proxies|
  {
    hide Store;
    match st.mode
    case InString(key, _, raw) => StoreCounts(st, key, raw);
    case InArray(key, raw) => StoreCounts(st, key, raw);
    case _ =>
  }

  // The lines of one-line fields hold no header.
  lemma {:induction false} FieldsNoHead(fs: seq<Field>)
    requires forall i :: 0 <= i < |fs| && fs[i].on ==> BareKey(fs[i].key) && OneLine(fs[i].raw)
    ensures LinesOf(FieldLines(fs)) == FieldLines(fs)
    ensures forall i :: 0 <= i < |FieldLines(fs)| ==> !ReadLine(FieldLines(fs)[i]).HeadLine?
  {
    hide ReadLine, OneLine, BareKey, AssignText, Lines;
    if fs != [] {
      var rest := fs[1..];
      forall i | 0 <= i < |rest| && rest[i].on ensures BareKey(rest[i].key) && OneLine(rest[i].raw) {
        assert rest[i] == fs[i + 1];
      }
      FieldsNoHead(rest);
      if fs[0].on {
        FieldNoHead(fs[0].key, fs[0].raw);
        LinesOfApart([AssignText(Assign(fs[0].key, fs[0].raw))], FieldLines(rest));
        LinesOfOne(AssignText(Assign(fs[0].key, fs[0].raw)));
      } else {
        assert FieldLines(fs) == FieldLines(rest);
      }
    }
  }

  lemma FieldNoHead(key: string, raw: string)
    requires BareKey(key) && OneLine(raw)
    ensures var t := AssignText(Assign(key, raw)); Lines(t) == [t] && !ReadLine(t).HeadLine?
  {
    hide ReadLine, BareKey, Lines, Complete, LeftOpen, OpenArray;
    AnyLineReads(key, raw);
    KeyNoBreak(key);
    OneLineIs(AssignText(Assign(key, raw)));
  }

  // ---- The tunnel behind is lost ----

  // The text of the first tunnel leaves the array open.
  lemma OpenFeeds(p: Tunnel, key: string)
    requires Normal(p) && !IsRanged(p) && NewKey(p, key)
    ensures var out := Feed(START, Lines(ProxyText(WithExtra(p, key, LEFT_OPEN))));
            |out.proxies| == 1 && out.mode == InArray(key, LEFT_OPEN)
  {
    hide Feed, Lines, MainFields, PutFields, Normal, IsRanged, Writable, Step, BareKey, LinesOf;
    var fs, x := MainFields(p) + ExtraFields(p.settings.extras), Assign(key, LEFT_OPEN);
    var texts := [PROXY_HEAD] + FieldLines(fs) + [AssignText(x)];
    OpenTexts(p, key);
    AllWritable(p);
    FieldTexts(fs);
    LeftOpenIs();
    KeyNoBreak(key);
    MarksNoBreak();
    LinesJoined(texts);
    LinesOfApart([PROXY_HEAD] + FieldLines(fs), [AssignText(x)]);
    LinesOfApart([PROXY_HEAD], FieldLines(fs));
    FeedApart(START, LinesOf([PROXY_HEAD]) + LinesOf(FieldLines(fs)), LinesOf([AssignText(x)]));
    FeedApart(START, LinesOf([PROXY_HEAD]), LinesOf(FieldLines(fs)));
    HeaderFeeds(START, false);
    var st := NewBlock(START, false, EmptyBlock(None));
    FieldsFeed(st, fs, [], EmptyBlock(None));
    var st' := NewBlock(START, false, PutFields(EmptyBlock(None), fs));
    FedOne(st', AssignText(x));
    OpenStep(st', key);
  }

  lemma OpenTexts(p: Tunnel, key: string)
    requires !IsRanged(p)
    ensures GenerateProxy(WithExtra(p, key, LEFT_OPEN))
         == [PROXY_HEAD] + FieldLines(MainFields(p) + ExtraFields(p.settings.extras)) + [AssignText(Assign(key, LEFT_OPEN))]
  {
    hide FieldLines, IsPortRange, Str, Unbracket;
    var es := p.settings.extras;
    ExtraFieldsApart(es, [Extra(key, LEFT_OPEN)]);
    var fs := MainFields(p) + ExtraFields(es);
    assert MainFields(WithExtra(p, key, LEFT_OPEN)) == MainFields(p);
    var one := Field(true, key, LEFT_OPEN);
    assert MainFields(p) + (ExtraFields(es) + [one]) == fs + [one];
    FieldLinesApart(fs, [one]);
    OneField(one);
  }

  lemma OneField(f: Field)
    requires f.on
    ensures ExtraFields([Extra(f.key, f.raw)]) == [f] && FieldLines([f]) == [AssignText(Assign(f.key, f.raw))]
  {
    assert [f][1..] == [] && [Extra(f.key, f.raw)][1..] == [];
  }

  lemma {:induction false} ExtraFieldsApart(a: seq<Extra>, b: seq<Extra>)
    ensures ExtraFields(a + b) == ExtraFields(a) + ExtraFields(b)
  {
    if a == [] {
      assert a + b == b;
    } else {
      assert (a + b)[0] == a[0] && (a + b)[1..] == a[1..] + b;
      ExtraFieldsApart(a[1..], b);
    }
  }

  lemma {:induction false} FieldLinesApart(a: seq<Field>, b: seq<Field>)
    ensures FieldLines(a + b) == FieldLines(a) + FieldLines(b)
  {
    hide AssignText;
    if a == [] {
      assert a + b == b;
    } else {
      assert (a + b)[0] == a[0] && (a + b)[1..] == a[1..] + b;
      FieldLinesApart(a[1..], b);
    }
  }

  lemma OpenStep(st: Parsed, key: string)
    requires BareKey(key) && st.mode.Ready? && st.cur.Some?
    ensures Step(st, AssignText(Assign(key, LEFT_OPEN))) == st.(mode := InArray(key, LEFT_OPEN))
  {
    hide Step, BareKey, LeftOpen, Trim, OpenArray, Complete, IsSpace;
    LeftOpenIs();
    CompleteReads(LEFT_OPEN);
    StartReads(st, key, LEFT_OPEN);
  }

  // The header of the next tunnel is a line of the array.
  lemma HeadSwallowed(st: Parsed, key: string)
    requires st.mode == InArray(key, LEFT_OPEN)
    ensures Feed(st, ["", PROXY_HEAD]) == st.(mode := InArray(key, LEFT_OPEN + "\n" + PROXY_HEAD))
  {
    hide ValueText, OpenArray, Store;
    LeftOpenIs();
    NoValue();
    HeadIsText();
    assert st == Gather(st, key, LEFT_OPEN);
    assert Step(st, "") == st;
    ArrayStep(st, key, LEFT_OPEN, PROXY_HEAD);
    FeedFirst(st, "", [PROXY_HEAD]);
    FeedFirst(st, PROXY_HEAD, []);
    assert [""] + [PROXY_HEAD] == ["", PROXY_HEAD] && [PROXY_HEAD] + [] == [PROXY_HEAD];
  }

  lemma HeadIsText()
    ensures ValueText(PROXY_HEAD) == PROXY_HEAD
  {
    hide CommentAt, Trim;
    HeadChars();
    WordGoesBy(PROXY_HEAD, 0);
    TrimTight(PROXY_HEAD);
    assert PROXY_HEAD[..|PROXY_HEAD|] == PROXY_HEAD;
  }

  lemma HeadChars()
    ensures Tight(PROXY_HEAD) && forall k :: 0 <= k < |PROXY_HEAD| ==> !IsQuote(PROXY_HEAD[k]) && PROXY_HEAD[k] != '#'
  {
  }

  lemma BlankNoHead()
    ensures !ReadLine("").HeadLine?
  {
    NoValue();
  }

  // The lines of the two tunnels, read one after the other.
  lemma LinesSwallowed(p: Tunnel, q: Tunnel, key: string)
    requires Normal(p) && Normal(q) && !IsRanged(p) && !IsRanged(q) && NewKey(p, key) && q.settings.extras == []
    ensures |ReadFrom(START, FileLines([ProxyText(WithExtra(p, key, LEFT_OPEN)), ProxyText(q)])).proxies| == 1
  {
    hide Feed, Lines, MainFields, Normal, IsRanged, Step, BareKey, ReadLine, LinesOf, FieldLines;
    var a, b := Lines(ProxyText(WithExtra(p, key, LEFT_OPEN))), Lines(ProxyText(q));
    OpenFeeds(p, key);
    var st := Feed(START, a);
    var fs := MainFields(q);
    FieldsOnly(q);
    FieldsNoHead(fs);
    var tail := FieldLines(fs) + [""];
    BlankNoHead();
    TwoFiles(ProxyText(WithExtra(p, key, LEFT_OPEN)), ProxyText(q));
    assert a + [""] + (b + [""]) == a + (["", PROXY_HEAD] + tail);
    FeedApart(START, a, ["", PROXY_HEAD] + tail);
    FeedApart(st, ["", PROXY_HEAD], tail);
    HeadSwallowed(st, key);
    NoHeadKeeps(st.(mode := InArray(key, LEFT_OPEN + "\n" + PROXY_HEAD)), tail);
    FinishKeeps(Feed(START, a + (["", PROXY_HEAD] + tail)));
  }

  lemma {:induction false} JoinLast(texts: seq<string>, x: string)
    requires texts != []
    ensures JoinLines(texts + [x]) == JoinLines(texts) + "\n" + x
  {
    var first, rest := texts[0], texts[1..];
    assert texts + [x] == [first] + (rest + [x]) && texts == [first] + rest;
    JoinFirst(first, rest + [x]);
    JoinFirst(first, rest);
    if rest == [] {
      assert rest + [x] == [x];
    } else {
      JoinLast(rest, x);
      assert first + "\n" + (JoinLines(rest) + "\n" + x) == first + "\n" + JoinLines(rest) + "\n" + x;
    }
  }

  lemma NoArrayKey(key: string)
    requires BareKey(key) && key != "proxies" && key != "visitors"
    ensures !HasArray(AssignText(Assign(key, LEFT_OPEN)))
  {
    hide BreakAt, BareKey, OpensArray;
    var t := AssignText(Assign(key, LEFT_OPEN));
    NoBreakIn(key);
    assert BreakAt(t) == |t| && t[..|t|] == t;
    NoArrayLine(key);
  }

  lemma NoBreakIn(key: string)
    requires BareKey(key)
    ensures var t := AssignText(Assign(key, LEFT_OPEN)); forall k :: 0 <= k < |t| ==> !LineBreak(t[k])
  {
    var t := AssignText(Assign(key, LEFT_OPEN));
    forall k | 0 <= k < |t| ensures !LineBreak(t[k]) {
      assert k < |key| ==> t[k] == key[k] && BareChar(key[k]);
    }
  }

  lemma NoArrayLine(key: string)
    requires BareKey(key) && key != "proxies" && key != "visitors"
    ensures !OpensArray(AssignText(Assign(key, LEFT_OPEN)))
  {
    hide ArrayFollows;
    var t := AssignText(Assign(key, LEFT_OPEN));
    WordsBare();
    WordThenKey(key, "proxies");
    WordThenKey(key, "visitors");
    assert t[0] == key[0] && BareChar(key[0]);
    assert SkipBlanks(t, 0) == 0 && SkipQuote(t, 0) == 0;
  }

  lemma WordsBare()
    ensures BareKey("proxies") && BareKey("visitors")
  {
  }

  // A longer or shorter key is not followed by an array where the word ends.
  lemma WordThenKey(key: string, word: string)
    requires BareKey(key) && key != word && BareKey(word)
    ensures var t := AssignText(Assign(key, LEFT_OPEN)); StartsWith(t, 0, word) ==> !ArrayFollows(t, |word|)
  {
    var t, n := AssignText(Assign(key, LEFT_OPEN)), |word|;
    if |key| < n {
      assert t[|key|] == ' ' && BareChar(word[|key|]);
      assert n <= |t| ==> t[0..n][|key|] == t[|key|];
    } else if |key| == n {
      assert t[0..n] == key;
    } else {
      assert t[n] == key[n] && BareChar(key[n]);
    }
  }

  lemma OpenIsBlock(p: Tunnel, key: string)
    requires Normal(p) && !IsRanged(p) && NewKey(p, key)
    ensures BlockText(ProxyText(WithExtra(p, key, LEFT_OPEN)))
  {
    hide HasArray, Normal, FieldLines, MainFields, IsRanged, AssignText, BareKey;
    var fs := MainFields(p) + ExtraFields(p.settings.extras);
    var texts, x := [PROXY_HEAD] + FieldLines(fs), AssignText(Assign(key, LEFT_OPEN));
    OpenTexts(p, key);
    JoinLast(texts, x);
    NoArrayKey(key);
    ProxyIsBlock(p);
    SameTexts(p);
    HasArrayApart(JoinLines(texts), x);
    ShortNoReturn(key);
  }

  lemma SameTexts(p: Tunnel)
    requires !IsRanged(p)
    ensures ProxyText(p) == JoinLines([PROXY_HEAD] + FieldLines(MainFields(p) + ExtraFields(p.settings.extras)))
  {
    hide MainFields, IsRanged, FieldLines;
  }

  lemma ShortNoReturn(key: string)
    requires BareKey(key)
    ensures NoReturn(AssignText(Assign(key, LEFT_OPEN)))
  {
    hide BareKey;
    KeyNoBreak(key);
    LeftOpenIs();
  }

  /** An advanced setting that leaves an array open takes the next tunnel with it: of two tunnels
      written, one is read. */
  lemma OpenArraySwallows(p: Tunnel, q: Tunnel, key: string)
    requires Normal(p) && Normal(q) && !IsRanged(p) && !IsRanged(q) && NewKey(p, key) && q.settings.extras == []
    ensures var out := ReadText(FileText([ProxyText(WithExtra(p, key, LEFT_OPEN)), ProxyText(q)]));
            out.Some? && |out.value.proxies| == 1
  {
    hide Normal, IsRanged, NewKey, ReadFrom, Lines, HasArray, BlockText, FileText, WithoutMark;
    OpenIsBlock(p, key);
    ProxyIsBlock(q);
    FileSplits([ProxyText(WithExtra(p, key, LEFT_OPEN)), ProxyText(q)]);
    LinesSwallowed(p, q, key);
  }

  lemma TwoFiles(x: string, y: string)
    ensures FileLines([x, y]) == Lines(x) + [""] + (Lines(y) + [""])
  {
    hide Lines;
    assert [x, y][1..] == [y] && [y][1..] == [];
    assert FileLines([y]) == Lines(y) + [""] + [];
    assert Lines(y) + [""] + [] == Lines(y) + [""];
  }

  // A tunnel without advanced settings: its header, then one line for each field.
  lemma FieldsOnly(q: Tunnel)
    requires Normal(q) && !IsRanged(q) && q.settings.extras == []
    ensures Lines(ProxyText(q)) == [PROXY_HEAD] + LinesOf(FieldLines(MainFields(q)))
    ensures forall i :: 0 <= i < |MainFields(q)| && MainFields(q)[i].on ==> BareKey(MainFields(q)[i].key) && OneLine(MainFields(q)[i].raw)
  {
    hide Lines, MainFields, Normal, IsRanged, BareKey, OneLine, LinesOf, FieldLines, WholeValue;
    var fs := MainFields(q);
    MainFieldsWritable(q);
    FieldTexts(fs);
    MarksNoBreak();
    assert fs + ExtraFields([]) == fs;
    LinesJoined([PROXY_HEAD] + FieldLines(fs));
    LinesOfApart([PROXY_HEAD], FieldLines(fs));
    LinesOfOne(PROXY_HEAD);
    OneLineIs(PROXY_HEAD);
    forall i | 0 <= i < |fs| && fs[i].on ensures OneLine(fs[i].raw) {
      FieldOneLine(q, i);
    }
  }

  // ---- Blocks in the form of an array ----

  lemma {:induction false} HasArrayJoined(texts: seq<string>, i: nat)
    requires i < |texts| && HasArray(texts[i])
    ensures HasArray(JoinLines(texts))
  {
    hide HasArray;
    if |texts| > 1 {
      HasArrayApart(texts[0], JoinLines(texts[1..]));
      if i > 0 {
        HasArrayJoined(texts[1..], i - 1);
      }
    }
  }

  lemma {:induction false} FieldLineIn(fs: seq<Field>, i: nat) returns (j: nat)
    requires i < |fs| && fs[i].on
    ensures j < |FieldLines(fs)| && FieldLines(fs)[j] == AssignText(Assign(fs[i].key, fs[i].raw))
  {
    if i == 0 {
      j := 0;
    } else {
      j := FieldLineIn(fs[1..], i - 1);
      if fs[0].on {
        j := j + 1;
      }
    }
  }

  lemma ArrayLineStarts(key: string, raw: string)
    requires (key == "proxies" || key == "visitors") && raw != [] && raw[0] == '['
    ensures HasArray(AssignText(Assign(key, raw)))
  {
    hide BreakAt;
    var t := AssignText(Assign(key, raw));
    var n, k := BreakAt(t), |key|;
    assert t[..k] == key && t[k] == ' ' && t[k + 1] == '=' && t[k + 2] == ' ' && t[k + 3] == '[';
    assert forall i :: 0 <= i < k ==> t[i] == key[i] && !LineBreak(key[i]);
    assert n > k + 3;
    ArrayLineOpens(key, t[..n]);
  }

  lemma ArrayLineOpens(key: string, line: string)
    requires key == "proxies" || key == "visitors"
    requires |line| > |key| + 3 && line[..|key|] == key
    requires line[|key|] == ' ' && line[|key| + 1] == '=' && line[|key| + 2] == ' ' && line[|key| + 3] == '['
    ensures OpensArray(line)
  {
    var k := |key|;
    assert line[0] == key[0];
    assert SkipBlanks(line, k + 1) == k + 1;
    assert SkipBlanks(line, k + 3) == k + 3;
    assert line[k + 3..k + 4] == "[";
    assert line[0..k] == key;
  }

  /** An advanced setting `proxies` or `visitors` that holds an array is taken for a list of tunnels. */
  lemma ArraySetting(p: Tunnel, i: nat)
    requires i < |p.settings.extras| && (p.settings.extras[i].key == "proxies" || p.settings.extras[i].key == "visitors")
    requires p.settings.extras[i].raw != [] && p.settings.extras[i].raw[0] == '['
    ensures HasArray(ProxyText(p))
  {
    hide HasArray, MainFields, FieldLines, RangeText, AssignText;
    var es, fs := p.settings.extras, MainFields(p) + ExtraFields(p.settings.extras);
    ExtraFieldAt(es);
    assert fs[|MainFields(p)| + i] == Field(true, es[i].key, es[i].raw);
    var j := FieldLineIn(fs, |MainFields(p)| + i);
    ArrayLineStarts(es[i].key, es[i].raw);
    var at := if IsRanged(p) then j + 2 else j + 1;
    assert GenerateProxy(p)[at] == FieldLines(fs)[j];
    HasArrayJoined(GenerateProxy(p), at);
  }
}
