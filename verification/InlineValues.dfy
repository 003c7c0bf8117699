/** The value of an entry, as text: a plain value, or an inline table read from its text. */
module InlineValues {
  import opened Wrappers
  import opened TomlStrings
  import opened TomlText
  import opened InlineTables
  import opened InlineScan
  import opened InlineText
  import opened InlineLayout
  import opened InlineRead
  import opened InlineEdits
  import opened InlineRefines
  import opened InlineSetLaws

  // ---- A text is the text of one layout at most ----

  /** Reading is unambiguous: two well-formed tables of the same text are the same. */
  lemma {:induction false} SameTable(a: Layout, b: Layout)
    requires Good(a) && Good(b) && TableText(a) == TableText(b)
    ensures a == b
    decreases a
  {
    hide Good, TableText, BodyText, RowItems;
    var s := TableText(a);
    WholeAt(s);
    TableReads(s, 0, a);
    TableReads(s, 0, b);
    GoodParts(a);
    GoodParts(b);
    TableParts(a);
    TableParts(b);
    ItemCount(a.rows, 1);
    ItemCount(b.rows, 1);
    CountZero(a.rows);
    CountZero(b.rows);
    BodyIs(a);
    BodyIs(b);
    if a.rows.Row? {
      SameRows(s, 1, a.rows, b.rows, 1 + |BodyText(a)|);
    } else {
      SameSlice(s, 1, BodyText(a), BodyText(b));
    }
  }

  lemma WholeAt(s: string)
    ensures At(s, 0, s)
  {
  }

  lemma TableParts(l: Layout)
    ensures |TableText(l)| == |BodyText(l)| + 2
  {
  }

  lemma CountZero(r: Rows)
    ensures Count(r) == 0 <==> r.NoRows?
  {
  }

  // Two texts of the same length at the same place are the same.
  lemma SameSlice(s: string, o: nat, a: string, b: string)
    requires At(s, o, a) && At(s, o, b) && |a| == |b|
    ensures a == b
  {
  }

  // Rows found at the same places in the same text are the same.
  lemma {:induction false} SameRows(s: string, o: nat, a: Rows, b: Rows, close: nat)
    requires GoodRows(a) && GoodRows(b) && a.Row? && b.Row? && RowItems(a, o) == RowItems(b, o)
    requires At(s, o, RowsText(a)) && At(s, o, RowsText(b))
    requires o + |RowsText(a)| == close == o + |RowsText(b)| && close < |s|
    ensures a == b
    decreases a, 1
  {
    hide At, RowItems, RowsText, RowText, GoodRows, FirstFound, Blanks;
    RowTokens(a);
    RowTokens(b);
    ItemsSplit(a, o);
    ItemsSplit(b, o);
    RowsFirst(s, o, a);
    RowsFirst(s, o, b);
    assert FirstFound(a, o) == FirstFound(b, o);
    SameHead(s, o, a, b);
    SameTrail(s, o, a, b, close);
    if a.rest.Row? {
      RowSizes(a, b);
      assert RowItems(a, o)[1..] == RowItems(b, o)[1..];
      SameRows(s, o + |RowText(a)| + 1, a.rest, b.rest, close);
    }
  }

  lemma RowSizes(a: Rows, b: Rows)
    requires a.Row? && b.Row? && a.lead == b.lead && a.key == b.key && a.gap == b.gap && a.val == b.val && a.trail == b.trail
    ensures |RowText(a)| == |RowText(b)|
  {
  }

  lemma ItemsSplit(r: Rows, o: nat)
    requires r.Row?
    ensures |RowItems(r, o)| >= 1 && RowItems(r, o)[0] == FirstFound(r, o)
    ensures RowItems(r, o)[1..] == RowItems(r.rest, o + |RowText(r)| + 1)
    ensures |RowItems(r, o)| == 1 <==> r.rest.NoRows?
  {
    hide RowText, FirstFound;
    ItemCount(r.rest, o + |RowText(r)| + 1);
    CountZero(r.rest);
  }

  // The first row of a text, and what stands behind it.
  lemma RowsFirst(s: string, o: nat, r: Rows)
    requires r.Row? && At(s, o, RowsText(r))
    ensures At(s, o, RowText(r)) && RowAt(s, o, r)
    ensures r.rest.NoRows? ==> |RowsText(r)| == |RowText(r)|
    ensures r.rest.Row? ==>
              var e := o + |RowText(r)|;
              e < |s| && s[e] == ',' && At(s, e + 1, RowsText(r.rest)) && |RowsText(r)| == |RowText(r)| + 1 + |RowsText(r.rest)|
  {
    hide At, RowText, ValText, HeadText;
    if r.rest.NoRows? {
      assert RowsText(r) == RowText(r);
    } else {
      AtParts(s, o, RowText(r), "," + RowsText(r.rest));
      AtParts(s, o + |RowText(r)|, ",", RowsText(r.rest));
      AtChar(s, o + |RowText(r)|, ",", 0);
      AtEnd(s, o + |RowText(r)|, ",");
    }
    RowParts(s, o, r);
  }

  // The parts of two first rows up to their values.
  lemma {:induction false} SameHead(s: string, o: nat, a: Rows, b: Rows)
    requires a.Row? && b.Row? && KeyToken(a.key) && KeyToken(b.key) && GoodVal(a.val) && GoodVal(b.val)
    requires RowAt(s, o, a) && RowAt(s, o, b) && FirstFound(a, o) == FirstFound(b, o)
    ensures a.lead == b.lead && a.key == b.key && a.gap == b.gap && a.val == b.val
    decreases a, 0
  {
    hide At, KeyToken, GoodVal, ValText, KeyPath;
    HeadSizes(a);
    HeadSizes(b);
    SameSlice(s, o, a.lead, b.lead);
    var ks, vs := o + |a.lead|, o + |HeadText(a)|;
    SameKeyLength(s, ks, a.key, b.key);
    SameSlice(s, ks, a.key, b.key);
    SameSlice(s, ks + |a.key| + 1, a.gap, b.gap);
    SameSlice(s, vs, ValText(a.val), ValText(b.val));
    SameVals(a.val, b.val);
  }

  lemma HeadSizes(r: Rows)
    requires r.Row?
    ensures |HeadText(r)| == |r.lead| + |r.key| + 1 + |r.gap|
  {
  }

  // A key ends at the first `=` outside its quotes.
  lemma SameKeyLength(s: string, o: nat, a: string, b: string)
    requires KeyToken(a) && KeyToken(b) && At(s, o, a) && At(s, o, b) && At(s, o + |a|, "=") && At(s, o + |b|, "=")
    ensures |a| == |b|
  {
    hide At, KeyPath, IsSpace;
    AtChar(s, o + |a|, "=", 0);
    AtChar(s, o + |b|, "=", 0);
    AtEnd(s, o + |a|, "=");
    AtEnd(s, o + |b|, "=");
    KeyStopAt(s, o, a, 0, None, |s|);
    KeyStopAt(s, o, b, 0, None, |s|);
  }

  lemma {:induction false} SameVals(v: RVal, w: RVal)
    requires GoodVal(v) && GoodVal(w) && ValText(v) == ValText(w)
    ensures v == w
    decreases v
  {
    hide Good, ValueToken, TableText;
    ValueStart(v);
    ValueStart(w);
    if v.RTable? {
      SameTable(v.lay, w.lay);
    }
  }

  lemma ValueStart(v: RVal)
    requires GoodVal(v)
    ensures ValText(v) != [] && (ValText(v)[0] == '{' <==> v.RTable?)
    ensures v.RTable? ==> Good(v.lay)
  {
    hide ValueToken, Good, BodyText;
    if v.RText? {
      ValueNotEmpty(v.raw);
      FirstOfValue(v.raw);
    }
  }

  // The blanks behind two values at the same place.
  lemma SameTrail(s: string, o: nat, a: Rows, b: Rows, close: nat)
    requires a.Row? && b.Row? && a.lead == b.lead && a.key == b.key && a.gap == b.gap && a.val == b.val
    requires RowAt(s, o, a) && RowAt(s, o, b) && Blanks(a.trail) && Blanks(b.trail) && (a.rest.NoRows? <==> b.rest.NoRows?)
    requires a.rest.NoRows? ==> |RowText(a)| == |RowText(b)|
    requires a.rest.Row? ==> o + |RowText(a)| < |s| && s[o + |RowText(a)|] == ','
    requires b.rest.Row? ==> o + |RowText(b)| < |s| && s[o + |RowText(b)|] == ','
    ensures a.trail == b.trail
  {
    hide At, ValText, HeadText, RowText, Blanks;
    RowLength(a);
    RowLength(b);
    SameHeadText(a, b);
    var ve := o + |HeadText(a)| + |ValText(a.val)|;
    if a.rest.Row? {
      NoCommaInside(s, ve, a.trail, |b.trail|);
      NoCommaInside(s, ve, b.trail, |a.trail|);
    }
    SameSlice(s, ve, a.trail, b.trail);
  }

  lemma SameHeadText(a: Rows, b: Rows)
    requires a.Row? && b.Row? && a.lead == b.lead && a.key == b.key && a.gap == b.gap
    ensures HeadText(a) == HeadText(b)
  {
  }

  lemma NoCommaInside(s: string, o: nat, t: string, n: nat)
    requires At(s, o, t) && Blanks(t)
    ensures n < |t| ==> o + n < |s| && s[o + n] != ','
  {
    if n < |t| {
      AtChar(s, o, t, n);
      AtEnd(s, o, t);
      assert IsBlank(t[n]);
    }
  }

  // ---- What a value says ----

  /** The value opens a table. */
  predicate Opens(raw: string) {
    raw != [] && raw[0] == '{'
  }

  ghost predicate IsInline(raw: string) {
    exists l :: Good(l) && TableText(l) == raw
  }

  /** The rows of an inline table. */
  ghost function RowsOf(raw: string): Rows
    requires IsInline(raw)
  {
    var l :| Good(l) && TableText(l) == raw;
    l.rows
  }

  ghost function TabOf(raw: string): Tab
    requires IsInline(raw)
  {
    TreeOf(RowsOf(raw))
  }

  lemma RowsOfText(l: Layout)
    requires Good(l)
    ensures IsInline(TableText(l)) && RowsOf(TableText(l)) == l.rows
  {
    hide Good, TableText;
    var m :| Good(m) && TableText(m) == TableText(l) && m.rows == RowsOf(TableText(l));
    SameTable(l, m);
  }

  /** A value stored under the full key `k` says `v` at `p`. */
  ghost predicate RawSays(k: Path, raw: string, p: Path, v: string) {
    if IsInline(raw) then k <= p && Has(TabOf(raw), p[|k|..], v) else p == k && v == Unquote(raw)
  }

  function TextSpot(x: Spot<RVal>): Spot<string> {
    match x
    case Free => Free
    case Stuck => Stuck
    case Above => Above
    case Leads(v) => Leads(ValText(v))
  }

  /** What a path at or below a key leads to, in the value stored there; a value found is a text. */
  ghost function RawSpot(k: Path, raw: string, p: Path): Spot<string>
    requires k <= p
  {
    if k == p then Leads(raw) else if IsInline(raw) then TextSpot(RowWalk(RowsOf(raw), p[|k|..])) else Stuck
  }

  /** A value that is read whole: one that opens a table is the text of a well-formed one. */
  ghost predicate ValueOk(raw: string) {
    Opens(raw) ==> IsInline(raw) && Wf(TabOf(raw))
  }

  lemma InlineOpens(raw: string)
    requires IsInline(raw)
    ensures Opens(raw)
  {
    hide Good, BodyText;
    var l :| Good(l) && TableText(l) == raw;
  }

  /** A plain value opens no table. */
  lemma TokenIsPlain(raw: string)
    requires ValueToken(raw)
    ensures raw != [] && !Opens(raw) && !IsInline(raw)
  {
    hide ValueToken, IsInline;
    ValueNotEmpty(raw);
    FirstOfValue(raw);
    if IsInline(raw) {
      InlineOpens(raw);
    }
  }

  // ---- Setting a key inside a value ----

  /** Writing or removing a key in the text of an inline table: what the text says afterwards, and
      that paths apart from the key lead where they led. */
  lemma RawSetLaw(raw: string, path: Path, asked: Option<string>)
    requires IsInline(raw) && Wf(TabOf(raw)) && PlainPath(path) && (asked.Some? ==> ValueToken(asked.value))
    ensures var got, spot := InlineSet(raw, 0, path, asked), TextSpot(RowWalk(RowsOf(raw), path));
            && (got.None? <==> spot.Stuck? || spot.Above?)
            && (got.Some? ==>
                  && IsInline(got.value) && Wf(TabOf(got.value))
                  && (if Kept(spot, asked) then got.value == raw else Changed(TabOf(raw), TabOf(got.value), path, asked))
                  && (Still(spot, asked) ==> got.value == raw)
                  && forall q :: !Comparable(q, path) ==> RowWalk(RowsOf(got.value), q) == RowWalk(RowsOf(raw), q))
  {
    hide Idle, Good, ValueToken, Wf, TreeOf, SetKey, InlineSet, Changed, KeepsText, RowWalk, Walk, TableText, PlainPath;
    var l :| Good(l) && TableText(l) == raw && l.rows == RowsOf(raw) by { LayoutExists(raw); }
    assert Around("", l, "") == raw;
    var l' := SetRefines("", l, "", path, asked);
    assert Around("", l', "") == TableText(l');
    assert path != [] by { PathNotEmpty(path); }
    SetLaw(TreeOf(l.rows), path, asked, KeepsText(l, path, asked));
    RowWalkTree(l.rows, path);
    KeptIsTable(l, path, asked);
    KeptIsText(l, path, asked);
    IdleIsStill(l, path, asked);
    if InlineSet(raw, 0, path, asked).Some? {
      RowsOfText(l');
      if !KeepsText(l, path, asked) {
        ChangedIsWf(TreeOf(l.rows), TreeOf(l'.rows), path, asked);
      }
    }
  }

  lemma ChangedIsWf(t: Tab, t': Tab, path: Path, raw: Option<string>)
    requires Changed(t, t', path, raw)
    ensures Wf(t')
  {
  }

  /** A table found whose text is the very value written. */
  predicate Kept(spot: Spot<string>, asked: Option<string>) {
    asked.Some? && spot.Leads? && Opens(spot.val) && spot.val == Unquote(asked.value)
  }

  /** Nothing is to be done: the value is already there, or the key to remove leads nowhere. */
  predicate Still(spot: Spot<string>, asked: Option<string>) {
    match asked
    case None => spot.Free?
    case Some(r) => spot.Leads? && Unquote(spot.val) == Unquote(r)
  }

  lemma IdleIsStill(l: Layout, path: Path, asked: Option<string>)
    ensures Idle(l, path, asked) <==> Still(TextSpot(RowWalk(l.rows, path)), asked)
  {
    hide RowWalk, ValText, Unquote;
  }

  lemma PathNotEmpty(path: Path)
    requires PlainPath(path)
    ensures path != []
  {
  }

  lemma LayoutExists(raw: string)
    requires IsInline(raw)
    ensures exists l :: Good(l) && TableText(l) == raw && l.rows == RowsOf(raw)
  {
    hide Good, TableText;
    var m :| Good(m) && TableText(m) == raw && m.rows == RowsOf(raw);
  }

  lemma KeptIsText(l: Layout, path: Path, asked: Option<string>)
    requires Good(l)
    ensures KeepsText(l, path, asked) <==> Kept(TextSpot(RowWalk(l.rows, path)), asked)
  {
    hide Good, RowWalk, TableText, Unquote, ValueToken;
    var spot := RowWalk(l.rows, path);
    if spot.Leads? {
      GoodParts(l);
      WalkGood(l.rows, path);
      ValueStart(spot.val);
      BraceOpens(spot.val);
    }
  }

  lemma BraceOpens(v: RVal)
    requires GoodVal(v)
    ensures Opens(ValText(v)) <==> v.RTable?
  {
    hide ValueToken, Good, TableText;
    ValueStart(v);
  }

  lemma {:induction false} WalkGood(r: Rows, path: Path)
    requires GoodRows(r) && RowWalk(r, path).Leads?
    ensures GoodVal(RowWalk(r, path).val)
    decreases r
  {
    hide KeyPath, KeyToken, ValueToken, Blanks, Good;
    var k := KeyPath(r.key);
    if k != path {
      if Under(k, path) {
        ValueStart(r.val);
        GoodParts(r.val.lay);
        WalkGood(r.val.lay.rows, path[|k|..]);
      } else {
        WalkGood(r.rest, path);
      }
    }
  }

  /** What a value says leads to itself, and a path above it to a table, or to no key at all. */
  lemma SaidLeads(k: Path, raw: string, p: Path, v: string, q: Path)
    requires ValueOk(raw) && RawSays(k, raw, p, v) && k <= q <= p
    ensures q == p ==> RawSpot(k, raw, q).Leads?
    ensures q != p ==> RawSpot(k, raw, q).Above? || (RawSpot(k, raw, q).Leads? && Opens(RawSpot(k, raw, q).val))
  {
    hide Has, Wf, Walk, RowWalk, IsInline, RowsOf;
    if IsInline(raw) {
      InlineOpens(raw);
      if k != q {
        ValueLeads(TabOf(raw), p[|k|..], v, q[|k|..]);
        RowWalkTree(RowsOf(raw), q[|k|..]);
        TableFound(raw, q[|k|..]);
      }
    }
  }

  lemma TableFound(raw: string, q: Path)
    requires IsInline(raw)
    ensures var spot := RowWalk(RowsOf(raw), q); spot.Leads? ==> (Opens(ValText(spot.val)) <==> spot.val.RTable?)
  {
    hide Good, RowWalk, TableText;
    LayoutExists(raw);
    var l :| Good(l) && TableText(l) == raw && l.rows == RowsOf(raw);
    if RowWalk(l.rows, q).Leads? {
      GoodParts(l);
      WalkGood(l.rows, q);
      BraceOpens(RowWalk(l.rows, q).val);
    }
  }

  /** Emptied: nothing is written between the braces. */
  lemma RawEmpty(raw: string)
    requires IsInline(raw)
    ensures InlineEmpty(raw, 0) <==> TabOf(raw) == Nil
  {
    hide Good, TableText, InlineEmpty;
    LayoutExists(raw);
    var l :| Good(l) && TableText(l) == raw && l.rows == RowsOf(raw);
    assert Around("", l, "") == raw;
    EmptyAround("", l, "");
    NoRowsTree(l.rows);
  }
}
