/** Reading the text of a well-formed inline table gives its rows, at their places. */
module InlineRead {
  import opened Wrappers
  import opened TomlStrings
  import opened TomlText
  import opened InlineTables
  import opened InlineScan
  import opened InlineLayout

  // ---- Values ----

  lemma {:induction false} StringEndAt(s: string, o: nat, t: string, i: nat, close: nat, q: char)
    requires At(s, o, t) && o + |t| <= close <= |s| && StringEnd(t, i, |t|, q).Some?
    ensures StringEnd(s, o + i, close, q) == Some(o + StringEnd(t, i, |t|, q).value)
    decreases |t| - i
  {
    hide At;
    AtChar(s, o, t, i);
    if q == '\"' && t[i] == '\\' {
      StringEndAt(s, o, t, i + 2, close, q);
    } else if t[i] != q {
      StringEndAt(s, o, t, i + 1, close, q);
    }
  }

  lemma {:induction false} NoNewline(t: string, i: nat)
    requires '\n' !in t && i <= |t|
    ensures SkipComment(t, i) == |t|
    decreases |t| - i
  {
    if i < |t| {
      assert t[i] in t;
      NoNewline(t, i + 1);
    }
  }

  lemma {:induction false} ScanEndAt(s: string, o: nat, t: string, i: nat, depth: int, quote: Option<char>)
    requires At(s, o, t) && '\n' !in t && ScanEnd(t, i, depth, quote).Some?
    ensures ScanEnd(s, o + i, depth, quote) == Some(o + ScanEnd(t, i, depth, quote).value)
    decreases |t| - i
  {
    hide At;
    AtChar(s, o, t, i);
    AtEnd(s, o, t);
    if quote.Some? {
      if t[i] == '\\' && quote.value == '\"' {
        ScanEndAt(s, o, t, i + 2, depth, quote);
      } else {
        ScanEndAt(s, o, t, i + 1, depth, if t[i] == quote.value then None else quote);
      }
    } else if IsQuote(t[i]) {
      ScanEndAt(s, o, t, i + 1, depth, Some(t[i]));
    } else if t[i] == '#' {
      NoNewline(t, i);
    } else if t[i] == '[' || t[i] == '{' {
      ScanEndAt(s, o, t, i + 1, depth + 1, None);
    } else if t[i] == ']' || t[i] == '}' {
      if depth != 1 {
        ScanEndAt(s, o, t, i + 1, depth - 1, None);
      }
    } else {
      ScanEndAt(s, o, t, i + 1, depth, None);
    }
  }

  lemma {:induction false} WordStopAt(s: string, i: nat, e: nat, close: nat)
    requires i <= e <= close <= |s| && (e < close ==> s[e] == ',')
    requires forall k :: i <= k < e ==> s[k] !in ",}#\n"
    ensures WordStop(s, i, close) == e
    decreases e - i
  {
    if i < e {
      WordStopAt(s, i + 1, e, close);
    }
  }

  lemma {:induction false} TrimBackAt(s: string, vs: nat, e: nat, i: nat)
    requires vs < e <= i <= |s| && !IsSpace(s[e - 1]) && forall k :: e <= k < i ==> IsSpace(s[k])
    ensures TrimBack(s, vs, i) == e
    decreases i
  {
    hide IsSpace;
    if i > e {
      TrimBackAt(s, vs, e, i - 1);
    }
  }

  lemma NoTriple(s: string, o: nat)
    requires o < |s| && (IsQuote(s[o]) ==> o + 2 >= |s| || s[o + 1] != s[o] || s[o + 2] != s[o])
    ensures !StartsWith(s, o, "\"\"\"") && !StartsWith(s, o, "'''")
  {
    if o + 3 <= |s| {
      assert s[o..o + 3][0] == s[o] && s[o..o + 3][1] == s[o + 1] && s[o..o + 3][2] == s[o + 2];
    }
  }

  /** A value ends where its text ends; `e`: behind the blanks that follow it. */
  ghost predicate Follows(s: string, o: nat, t: string, e: nat, close: nat) {
    && At(s, o, t) && o + |t| <= e <= close < |s| && s[close] == '}' && (e < close ==> s[e] == ',')
    && forall k :: o + |t| <= k < e ==> IsBlank(s[k])
  }

  lemma BlankIsSpace(c: char)
    requires IsBlank(c)
    ensures IsSpace(c) && c !in ",}#\n"
  {
  }

  lemma WordEndAt(s: string, o: nat, raw: string, e: nat, close: nat)
    requires ValueToken(raw) && !IsQuote(raw[0]) && raw[0] != '[' && Follows(s, o, raw, e, close)
    ensures ValueEnd(s, o, close) == Some(o + |raw|)
  {
    hide IsSpace, Passes, StringEnd, ScanEnd, At;
    forall k | o <= k < e ensures s[k] !in ",}#\n" && (k >= o + |raw| ==> IsSpace(s[k])) {
      if k < o + |raw| {
        AtChar(s, o, raw, k - o);
        assert WordChar(raw[k - o]);
      } else {
        BlankIsSpace(s[k]);
      }
    }
    AtChar(s, o, raw, 0);
    AtChar(s, o, raw, |raw| - 1);
    assert WordChar(raw[0]);
    NoTriple(s, o);
    WordStopAt(s, o, e, close);
    TrimBackAt(s, o, o + |raw|, e);
  }

  lemma StringValueEnd(s: string, o: nat, raw: string, e: nat, close: nat)
    requires ValueToken(raw) && IsQuote(raw[0]) && Follows(s, o, raw, e, close)
    ensures ValueEnd(s, o, close) == Some(o + |raw|)
  {
    hide IsSpace, Passes, ScanEnd, At;
    StringEndAt(s, o, raw, 1, close, raw[0]);
    AtChar(s, o, raw, 0);
    AtChar(s, o, raw, 1);
    if |raw| > 2 {
      AtChar(s, o, raw, 2);
      assert raw[1] != raw[0];
    }
    NoTriple(s, o);
  }

  lemma ArrayValueEnd(s: string, o: nat, raw: string, e: nat, close: nat)
    requires ValueToken(raw) && raw[0] == '[' && Follows(s, o, raw, e, close)
    ensures ValueEnd(s, o, close) == Some(o + |raw|)
  {
    hide IsSpace, Passes, ScanEnd, At, StringEnd;
    AtChar(s, o, raw, 0);
    NoTriple(s, o);
    ScanEndAt(s, o, raw, 0, 0, None);
  }

  lemma ValueEndAt(s: string, o: nat, v: RVal, e: nat, close: nat)
    requires GoodVal(v) && Follows(s, o, ValText(v), e, close)
    ensures o < close && !IsBlank(s[o])
    ensures ValueEnd(s, o, close) == Some(o + |ValText(v)|)
    ensures s[o] == '{' <==> v.RTable?
  {
    hide IsSpace, Passes, ScanEnd, StringEnd, At, ValueEnd, Good;
    match v
    case RText(raw) =>
      AtChar(s, o, raw, 0);
      FirstOfValue(raw);
      if IsQuote(raw[0]) {
        StringValueEnd(s, o, raw, e, close);
      } else if raw[0] == '[' {
        ArrayValueEnd(s, o, raw, e, close);
      } else {
        WordEndAt(s, o, raw, e, close);
      }
    case RTable(lay) =>
      TableEnds(s, o, lay);
      TableValueEnd(s, o, close);
  }

  lemma FirstOfValue(raw: string)
    requires ValueToken(raw)
    ensures !IsBlank(raw[0]) && raw[0] != '{'
  {
    hide Passes, ScanEnd, StringEnd;
    if !IsQuote(raw[0]) && raw[0] != '[' {
      assert WordChar(raw[0]) && !IsSpace(raw[0]);
    }
  }

  lemma TableValueEnd(s: string, o: nat, close: nat)
    requires o < close < |s| && s[o] == '{' && ScanEnd(s, o, 0, None).Some? && ScanEnd(s, o, 0, None).value <= close
    ensures ValueEnd(s, o, close) == ScanEnd(s, o, 0, None)
  {
    hide ScanEnd;
    NoTriple(s, o);
  }

  // ---- Keys and blanks ----

  lemma {:induction false} KeyStopAt(s: string, o: nat, k: string, i: nat, q: Option<char>, close: nat)
    requires At(s, o, k) && KeyPasses(k, i, q) && o + |k| < close <= |s| && s[o + |k|] == '='
    ensures KeyStop(s, o + i, close, q) == o + |k|
    decreases |k| - i
  {
    hide At;
    if i < |k| {
      AtChar(s, o, k, i);
      if q.Some? {
        if k[i] == '\\' && q.value == '\"' {
          KeyStopAt(s, o, k, i + 2, q, close);
        } else {
          KeyStopAt(s, o, k, i + 1, if k[i] == q.value then None else q, close);
        }
      } else {
        KeyStopAt(s, o, k, i + 1, if IsQuote(k[i]) then Some(k[i]) else None, close);
      }
    }
  }

  lemma {:induction false} SkipBlanksAt(s: string, o: nat, t: string)
    requires At(s, o, t) && Blanks(t) && o + |t| < |s| && !IsBlank(s[o + |t|])
    ensures SkipBlanks(s, o) == o + |t|
    decreases |t|
  {
    if t != [] {
      AtChar(s, o, t, 0);
      assert s[o + 1..o + |t|] == t[1..];
      SkipBlanksAt(s, o + 1, t[1..]);
    }
  }

  lemma {:induction false} ItemsSkip(s: string, i: nat, e: nat, close: nat)
    requires i <= e <= close < |s| && forall k :: i <= k < e ==> IsBlank(s[k]) || s[k] == ','
    ensures ItemsFrom(s, i, close) == ItemsFrom(s, e, close)
    decreases e - i
  {
    hide IsSpace;
    if i < e {
      if IsBlank(s[i]) {
        BlankIsSpace(s[i]);
      }
      ItemsSkip(s, i + 1, e, close);
    }
  }

  lemma BlanksAt(s: string, o: nat, t: string)
    requires At(s, o, t) && Blanks(t)
    ensures forall k :: o <= k < o + |t| ==> IsBlank(s[k])
  {
    forall k | o <= k < o + |t| ensures IsBlank(s[k]) {
      AtChar(s, o, t, k - o);
    }
  }

  // ---- Rows ----

  /** Where the rows of a text that starts at `o` are found. */
  function RowItems(r: Rows, o: nat): seq<Found> {
    match r
    case NoRows => []
    case Row(lead, key, gap, val, trail, rest) =>
      [FirstFound(r, o)] + RowItems(rest, o + |RowText(r)| + 1)
  }

  function FirstFound(r: Rows, o: nat): Found
    requires r.Row?
  {
    var vs := o + |HeadText(r)|;
    Found(KeyPath(r.key), o + |r.lead|, vs, vs + |ValText(r.val)|)
  }

  // The parts of a row, at their places.
  ghost predicate RowAt(s: string, o: nat, r: Rows)
    requires r.Row?
  {
    var vs := o + |HeadText(r)|;
    var ve := vs + |ValText(r.val)|;
    && At(s, o, r.lead) && At(s, o + |r.lead|, r.key) && At(s, o + |r.lead| + |r.key|, "=")
    && At(s, o + |r.lead| + |r.key| + 1, r.gap) && At(s, vs, ValText(r.val)) && At(s, ve, r.trail)
  }

  lemma RowParts(s: string, o: nat, r: Rows)
    requires r.Row?
    ensures At(s, o, RowText(r)) <==> RowAt(s, o, r)
    ensures |HeadText(r)| == |r.lead| + |r.key| + 1 + |r.gap|
  {
    hide At, ValText;
    AtParts(s, o, HeadText(r) + ValText(r.val), r.trail);
    AtParts(s, o, HeadText(r), ValText(r.val));
    AtParts(s, o, r.lead + r.key + "=", r.gap);
    AtParts(s, o, r.lead + r.key, "=");
    AtParts(s, o, r.lead, r.key);
  }

  lemma ItemStep(s: string, ks: nat, eq: nat, vs: nat, ve: nat, close: nat)
    requires ks < eq < vs < close < |s| && !IsSpace(s[ks]) && s[ks] != ',' && s[ks] != '#'
    requires KeyStop(s, ks, close, None) == eq && s[eq] == '=' && KeyPath(s[ks..eq]) != [""]
    requires SkipBlanks(s, eq + 1) == vs && ValueEnd(s, vs, close) == Some(ve)
    ensures ItemsFrom(s, ks, close) == AddFirst(Found(KeyPath(s[ks..eq]), ks, vs, ve), ItemsFrom(s, ve, close))
  {
    hide KeyStop, KeyPath, SkipBlanks, ValueEnd, IsSpace, SkipComment;
  }

  lemma RowReads(s: string, o: nat, r: Rows, e: nat, close: nat)
    requires r.Row? && GoodRows(r) && At(s, o, RowText(r)) && e == o + |RowText(r)|
    requires e <= close < |s| && s[close] == '}' && (e < close ==> s[e] == ',')
    ensures ItemsFrom(s, o, close) == AddFirst(FirstFound(r, o), ItemsFrom(s, e, close))
  {
    hide At, ValText, KeyPath, IsSpace, ValueEnd, KeyPasses, KeyStop, GoodRows, GoodVal, IsBlank, ItemsFrom, SkipBlanks, RowText, Blanks;
    RowTokens(r);
    RowParts(s, o, r);
    RowLength(r);
    var ks := o + |r.lead|;
    var eq := ks + |r.key|;
    var vs := o + |HeadText(r)|;
    var ve := vs + |ValText(r.val)|;
    BlanksAt(s, o, r.lead);
    ItemsSkip(s, o, ks, close);
    FirstOfKey(r.key);
    AtChar(s, ks, r.key, 0);
    AtChar(s, eq, "=", 0);
    BlanksAt(s, ve, r.trail);
    ValueEndAt(s, vs, r.val, e, close);
    KeyStopAt(s, ks, r.key, 0, None, close);
    SkipBlanksAt(s, eq + 1, r.gap);
    SliceAt(s, ks, r.key);
    ItemStep(s, ks, eq, vs, ve, close);
    ItemsSkip(s, ve, e, close);
  }

  lemma RowLength(r: Rows)
    requires r.Row?
    ensures |RowText(r)| == |HeadText(r)| + |ValText(r.val)| + |r.trail|
  {
  }

  lemma RowTokens(r: Rows)
    requires r.Row? && GoodRows(r)
    ensures Blanks(r.lead) && KeyToken(r.key) && Blanks(r.gap) && GoodVal(r.val) && Blanks(r.trail) && GoodRows(r.rest)
  {
  }

  lemma SliceAt(s: string, o: nat, t: string)
    requires At(s, o, t)
    ensures o + |t| <= |s| && s[o..o + |t|] == t
  {
  }

  lemma FirstOfKey(k: string)
    requires KeyToken(k)
    ensures !IsSpace(k[0]) && k[0] != ',' && k[0] != '#'
  {
    hide KeyPath, IsSpace;
  }

  /** Reading the rows of a table gives each of them at its place. */
  lemma {:induction false} RowsRead(s: string, o: nat, r: Rows, close: nat)
    requires GoodRows(r) && r.Row? && At(s, o, RowsText(r)) && o + |RowsText(r)| == close < |s| && s[close] == '}'
    ensures ItemsFrom(s, o, close) == Some(RowItems(r, o))
    decreases r
  {
    hide At, ValText, KeyPath, RowText, ItemsFrom, FirstFound;
    var e := o + |RowText(r)|;
    if r.rest.NoRows? {
      assert RowsText(r) == RowText(r);
      RowReads(s, o, r, e, close);
      ItemsEnd(s, close);
      assert RowItems(r, o) == [FirstFound(r, o)];
    } else {
      AtParts(s, o, RowText(r), "," + RowsText(r.rest));
      AtParts(s, e, ",", RowsText(r.rest));
      AtChar(s, e, ",", 0);
      RowReads(s, o, r, e, close);
      ItemsSkip(s, e, e + 1, close);
      RowsRead(s, e + 1, r.rest, close);
    }
  }

  lemma ItemsEnd(s: string, close: nat)
    requires close < |s|
    ensures ItemsFrom(s, close, close) == Some([])
  {
  }

  /** Reading an inline table gives its rows. */
  lemma TableReads(s: string, o: nat, l: Layout)
    requires Good(l) && At(s, o, TableText(l))
    ensures InlineItems(s, o) == Some(TableAt(RowItems(l.rows, o + 1), o + 1 + |BodyText(l)|))
    ensures s[o] == '{' && s[o + 1 + |BodyText(l)|] == '}' && At(s, o + 1, BodyText(l))
  {
    hide At, RowsText, ItemsFrom, ScanEnd, GoodRows;
    TableEnds(s, o, l);
    AtEnd(s, o, TableText(l));
    var close := o + 1 + |BodyText(l)|;
    assert |TableText(l)| == |BodyText(l)| + 2;
    if l.rows.NoRows? {
      BlanksAt(s, o + 1, l.blank);
      ItemsSkip(s, o + 1, close, close);
      ItemsEnd(s, close);
    } else {
      RowsRead(s, o + 1, l.rows, close);
    }
  }
}
