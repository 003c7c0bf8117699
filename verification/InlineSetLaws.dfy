/** Setting one key of an inline table, in its text: the text written is a well-formed table, it
    holds what the tree holds after the same change, and nothing outside the braces moves. */
module InlineSetLaws {
  import opened Wrappers
  import opened TomlStrings
  import opened TomlText
  import opened InlineTables
  import opened InlineScan
  import opened InlineText
  import opened InlineLayout
  import opened InlineRead
  import opened InlineEdits
  import opened InlineRefines

  function Around(pre: string, l: Layout, post: string): string {
    pre + TableText(l) + post
  }

  lemma Braces(pre: string, b: string, post: string)
    ensures pre + ("{" + b + "}") + post == (pre + "{") + b + ("}" + post)
  {
    Assoc(pre, "{" + b, "}");
    Assoc(pre, "{", b);
    Assoc((pre + "{") + b, "}", post);
  }

  lemma BodyInside(pre: string, l: Layout, post: string)
    ensures Around(pre, l, post) == (pre + "{") + BodyText(l) + ("}" + post)
    ensures At(Around(pre, l, post), |pre|, TableText(l))
  {
    hide BodyText;
    Braces(pre, BodyText(l), post);
    Cut3(Around(pre, l, post), pre, TableText(l), post);
  }

  /** Where the rows are found. */
  lemma ReadAround(pre: string, l: Layout, post: string)
    requires Good(l)
    ensures var s, o := Around(pre, l, post), |pre| + 1;
            && InlineItems(s, |pre|) == Some(TableAt(RowItems(l.rows, o), o + |BodyText(l)|))
            && InRange(s, |pre|, TableAt(RowItems(l.rows, o), o + |BodyText(l)|))
            && |RowItems(l.rows, o)| == Count(l.rows)
  {
    hide At, TableText, BodyText, Good, InRange;
    BodyInside(pre, l, post);
    TableReads(Around(pre, l, post), |pre|, l);
    TableInRange(Around(pre, l, post), |pre|);
    ItemCount(l.rows, |pre| + 1);
  }

  // ---- One edit of the text ----

  lemma DropCase(pre: string, l: Layout, post: string, k: nat)
    requires Good(l) && k < Count(l.rows)
    ensures var s, items := Around(pre, l, post), RowItems(l.rows, |pre| + 1);
            && |items| == Count(l.rows) && AllRanged(s, items)
            && InlineDrop(s, items, k) == Around(pre, DropRow(l, k), post)
  {
    hide TableText, RowsText, GoodRows, RowItems, FindComma, DropComma, BodyText, Around;
    var s, items, p, q := Around(pre, l, post), RowItems(l.rows, |pre| + 1), pre + "{", "}" + post;
    ReadAround(pre, l, post);
    BodyInside(pre, l, post);
    var l' := DropRow(l, k);
    BodyInside(pre, l', post);
    BodyIs(l);
    BodyIs(l');
    assert |p| == |pre| + 1;
    if Count(l.rows) == 1 {
      DropOnlyText(p, l.rows, q);
      OnlyRow(l.rows);
    } else {
      DropText(p, l.rows, q, k);
      DropKeepsRow(l.rows, k);
    }
  }

  lemma BodyIs(l: Layout)
    ensures BodyText(l) == if l.rows.NoRows? then l.blank else RowsText(l.rows)
  {
  }

  lemma SetCase(pre: string, l: Layout, post: string, k: nat, v: RVal)
    requires Good(l) && k < Count(l.rows)
    ensures var s, items := Around(pre, l, post), RowItems(l.rows, |pre| + 1);
            && k < |items| && Ranged(s, items[k]) && s[items[k].vs..items[k].ve] == ValText(ValAt(l.rows, k))
            && s[..items[k].vs] + ValText(v) + s[items[k].ve..] == Around(pre, l.(rows := SetVal(l.rows, k, v)), post)
  {
    hide TableText, RowsText, GoodRows, RowItems, BodyText, ValText, Around;
    var p, q := pre + "{", "}" + post;
    var l' := l.(rows := SetVal(l.rows, k, v));
    ReadAround(pre, l, post);
    BodyInside(pre, l, post);
    BodyInside(pre, l', post);
    BodyIs(l);
    BodyIs(l');
    assert |p| == |pre| + 1;
    SetValText(p, l.rows, q, k, v);
    assert l'.rows.Row?;
  }

  lemma AddCase(pre: string, l: Layout, post: string, path: Path, raw: string)
    requires Good(l)
    ensures var s, items, close := Around(pre, l, post), RowItems(l.rows, |pre| + 1), |pre| + 1 + |BodyText(l)|;
            && close <= |s| && AllRanged(s, items)
            && InlineAdd(s, |pre|, items, close, Dotted(path) + " = " + raw) == Around(pre, AddRow(l, path, raw), post)
  {
    hide TableText, RowsText, GoodRows, RowItems, BodyText, Around, Dotted, InlineAdd;
    ReadAround(pre, l, post);
    if l.rows.NoRows? {
      AddFirstRow(pre, l, post, path, raw);
    } else {
      AddOneMore(pre, l, post, path, raw);
    }
  }

  lemma AddFirstRow(pre: string, l: Layout, post: string, path: Path, raw: string)
    requires Good(l) && l.rows.NoRows?
    ensures var s, close := Around(pre, l, post), |pre| + 1 + |BodyText(l)|;
            && close <= |s| && InlineAdd(s, |pre|, [], close, Dotted(path) + " = " + raw) == Around(pre, AddRow(l, path, raw), post)
  {
    hide TableText, RowsText, GoodRows, BodyText, Around, Dotted;
    var s, p, q := Around(pre, l, post), pre + "{", "}" + post;
    var l' := AddRow(l, path, raw);
    BodyInside(pre, l, post);
    BodyInside(pre, l', post);
    BodyIs(l');
    assert |p| == |pre| + 1;
    Cut3(s, p, BodyText(l), q);
    NewRowText(path, raw, " ");
    FirstAdded(p, Dotted(path) + " = " + raw, q);
    Cut2(s, p, BodyText(l) + q) by { Assoc(p, BodyText(l), q); }
  }

  lemma AddOneMore(pre: string, l: Layout, post: string, path: Path, raw: string)
    requires Good(l) && l.rows.Row?
    ensures var s, items, close := Around(pre, l, post), RowItems(l.rows, |pre| + 1), |pre| + 1 + |BodyText(l)|;
            && close <= |s| && AllRanged(s, items)
            && InlineAdd(s, |pre|, items, close, Dotted(path) + " = " + raw) == Around(pre, AddRow(l, path, raw), post)
  {
    hide TableText, RowsText, GoodRows, RowItems, BodyText, Around, Dotted, InlineAdd, AddRow, AddLast, InRange, Ranged;
    var s, items, p, q := Around(pre, l, post), RowItems(l.rows, |pre| + 1), pre + "{", "}" + post;
    var l' := AddRow(l, path, raw);
    ReadAround(pre, l, post);
    BodyInside(pre, l, post);
    BodyInside(pre, l', post);
    BodyIs(l);
    AddedRow(l, path, raw);
    BodyIs(l');
    assert |p| == |pre| + 1;
    RangeParts(s, |pre|, TableAt(items, |pre| + 1 + |BodyText(l)|));
    AddText(p, l.rows, q, path, raw);
    InlineAddIs(s, |pre|, items, |pre| + 1 + |BodyText(l)|, Dotted(path) + " = " + raw);
  }

  lemma RangeParts(s: string, open: nat, t: TableAt)
    requires InRange(s, open, t)
    ensures open + 1 <= t.close <= |s| && AllRanged(s, t.items)
  {
  }

  lemma InlineAddIs(s: string, open: nat, items: seq<Found>, close: nat, line: string)
    requires open + 1 <= close <= |s| && AllRanged(s, items) && items != []
    ensures var ve := items[|items| - 1].ve; ve <= |s| && InlineAdd(s, open, items, close, line) == s[..ve] + ", " + line + s[ve..]
  {
  }

  lemma AddedRow(l: Layout, path: Path, raw: string)
    requires l.rows.Row?
    ensures AddRow(l, path, raw).rows == AddLast(l.rows, path, raw) && AddLast(l.rows, path, raw).Row?
  {
  }

  lemma FirstAdded(p: string, line: string, q: string)
    ensures p + " " + line + " " + q == p + (" " + line + " ") + q
  {
    Assoc(p, " " + line, " ");
    Assoc(p, " ", line);
  }

  // ---- Emptiness ----

  lemma {:induction false} BlanksTrim(t: string)
    requires Blanks(t)
    ensures Trim(t) == []
  {
    if t != [] {
      assert IsBlank(t[0]);
      BlanksTrim(t[1..]);
      TrimLeftStep(t);
    }
  }

  lemma TrimLeftStep(t: string)
    requires t != [] && IsBlank(t[0])
    ensures Trim(t) == Trim(t[1..])
  {
  }

  lemma EmptyAround(pre: string, l: Layout, post: string)
    requires Good(l)
    ensures InlineEmpty(Around(pre, l, post), |pre|) <==> l.rows.NoRows?
  {
    hide TableText, GoodRows, RowItems, BodyText, Around, Trim, Blanks;
    var s := Around(pre, l, post);
    ReadAround(pre, l, post);
    BodyInside(pre, l, post);
    BodyIs(l);
    if l.rows.NoRows? {
      Cut3(s, pre + "{", BodyText(l), "}" + post);
      BlanksTrim(l.blank);
    }
  }

  // Two tables of the same text have as many rows.
  lemma SameTextSameRows(pre: string, a: Layout, b: Layout, post: string)
    requires Good(a) && Good(b) && Around(pre, a, post) == Around(pre, b, post)
    ensures a.rows.NoRows? <==> b.rows.NoRows?
  {
    hide Around, RowItems, BodyText, GoodRows;
    EmptyAround(pre, a, post);
    EmptyAround(pre, b, post);
  }

  // ---- The operation ----

  /** The key holds a table whose text is the very value written. */
  predicate KeepsText(l: Layout, path: Path, raw: Option<string>) {
    var spot := RowWalk(l.rows, path);
    raw.Some? && spot.Leads? && spot.val.RTable? && TableText(spot.val.lay) == Unquote(raw.value)
  }

  /** Nothing is to be done: the key already holds that value, or the key to remove leads nowhere. */
  predicate Idle(l: Layout, path: Path, raw: Option<string>) {
    var spot := RowWalk(l.rows, path);
    match raw
    case None => spot.Free?
    case Some(r) => spot.Leads? && Unquote(ValText(spot.val)) == Unquote(r)
  }

  /** What the operation on the text does, given what it does on the tree: the same, in the text of a
      well-formed table; and a path apart from the key leads where it led. */
  ghost predicate Refined(pre: string, l: Layout, l': Layout, post: string, path: Path, raw: Option<string>, keep: bool) {
    var got := InlineSet(Around(pre, l, post), |pre|, path, raw);
    match SetKey(TreeOf(l.rows), path, raw, keep)
    case None => got == None
    case Some(t') =>
      && got == Some(Around(pre, l', post)) && Good(l') && TreeOf(l'.rows) == t'
      && forall q :: !Comparable(q, path) ==> RowWalk(l'.rows, q) == RowWalk(l.rows, q)
  }

  predicate Settable(l: Layout, path: Path, raw: Option<string>) {
    Good(l) && PlainPath(path) && (raw.Some? ==> ValueToken(raw.value))
  }

  lemma FoundCase(pre: string, l: Layout, post: string, path: Path, raw: Option<string>, keep: bool) returns (l': Layout)
    requires Settable(l, path, raw) && Wf(TreeOf(l.rows)) && HasKey(TreeOf(l.rows), path) && keep == KeepsText(l, path, raw)
    ensures Refined(pre, l, l', post, path, raw, keep)
    ensures keep || Idle(l, path, raw) ==> l' == l
  {
    hide Around, RowItems, Good, ValueToken, PlainPath, First, KeyAt, RowWalk, KeepsText, Idle, Wf, Refined, FindKey, HasKey, TreeOf;
    ReadAround(pre, l, post);
    FindsKey(l.rows, |pre| + 1, path);
    var k := FindKey(RowItems(l.rows, |pre| + 1), path);
    GoodParts(l);
    KeptSame(l, k, path, raw);
    IdleSame(l, k, path, raw);
    match raw
    case None => l' := FoundDrop(pre, l, post, path, k, keep);
    case Some(r) => l' := FoundWrite(pre, l, post, path, r, k, keep);
  }

  lemma FoundDrop(pre: string, l: Layout, post: string, path: Path, k: nat, keep: bool) returns (l': Layout)
    requires Good(l) && k == FindKey(RowItems(l.rows, |pre| + 1), path) && k < Count(l.rows)
    requires KeyAt(l.rows, k) == path && First(l.rows, k)
    ensures Refined(pre, l, l', post, path, None, keep)
  {
    hide Around, RowItems, RowsText, Good, InlineDrop, First, InRange, Ranged, AllRanged, KeyAt, RowWalk, DropAt, DropRow, FindKey;
    ReadAround(pre, l, post);
    l' := DropRow(l, k);
    DropCase(pre, l, post, k);
    RowTree(l.rows, k, RText(""));
    DropRowGood(l, k);
    DropRowRows(l, k);
    forall q | !Comparable(q, path) ensures RowWalk(l'.rows, q) == RowWalk(l.rows, q) {
      WalkOffDrop(l.rows, k, q);
    }
  }

  lemma DropRowRows(l: Layout, k: nat)
    requires k < Count(l.rows)
    ensures DropRow(l, k).rows == DropAt(l.rows, k)
  {
  }

  lemma FoundWrite(pre: string, l: Layout, post: string, path: Path, r: string, k: nat, keep: bool) returns (l': Layout)
    requires Settable(l, path, Some(r)) && Wf(TreeOf(l.rows)) && keep == KeepsText(l, path, Some(r))
    requires k == FindKey(RowItems(l.rows, |pre| + 1), path) && k < Count(l.rows)
    requires KeyAt(l.rows, k) == path && First(l.rows, k)
    ensures Refined(pre, l, l', post, path, Some(r), keep)
    ensures keep || Idle(l, path, Some(r)) ==> l' == l
  {
    hide Idle, Around, RowItems, RowsText, Good, GoodRows, ValueToken, PlainPath, Unquote, First, InRange, AllRanged, KeyAt, RowWalk,
      KeepsText, Wf, SetVal, ValAt, FindKey;
    var v := RText(r);
    ReadAround(pre, l, post);
    SetCase(pre, l, post, k, v);
    RowTree(l.rows, k, v);
    GoodParts(l);
    SameText(l, k, path, r);
    KeptSame(l, k, path, Some(r));
    IdleSame(l, k, path, Some(r));
    if Unquote(ValText(ValAt(l.rows, k))) == Unquote(r) {
      l' := l;
    } else {
      l' := l.(rows := SetVal(l.rows, k, v));
      GoodText(r);
      SetValGood(l.rows, k, v);
      RowsStay(l.rows, k, v);
      GoodParts(l');
      forall q | !Comparable(q, path) ensures RowWalk(l'.rows, q) == RowWalk(l.rows, q) {
        WalkOffSet(l.rows, k, v, q);
      }
    }
  }

  // The texts agree exactly when the values do, or when the table's own text is the value written.
  lemma SameText(l: Layout, k: nat, path: Path, r: string)
    requires Wf(TreeOf(l.rows)) && GoodRows(l.rows) && k < Count(l.rows) && KeyAt(l.rows, k) == path
    ensures Unquote(ValText(ValAt(l.rows, k))) == Unquote(r) <==> SameValue(ValOf(ValAt(l.rows, k)), r, KeepsText(l, path, Some(r)))
  {
    hide Unquote, Wf, RowWalk;
    var v := ValAt(l.rows, k);
    SameVal(l.rows, k);
    WalkAt(l.rows, k, v, path);
    if v.RTable? {
      TableUnquoted(v.lay);
    }
  }

  lemma KeptSame(l: Layout, k: nat, path: Path, raw: Option<string>)
    requires Wf(TreeOf(l.rows)) && k < Count(l.rows) && KeyAt(l.rows, k) == path
    ensures KeepsText(l, path, raw) ==> raw.Some? && ValOf(ValAt(l.rows, k)).Sub?
  {
    hide Unquote, Wf, RowWalk;
    SameVal(l.rows, k);
    WalkAt(l.rows, k, ValAt(l.rows, k), path);
  }

  lemma IdleSame(l: Layout, k: nat, path: Path, raw: Option<string>)
    requires Wf(TreeOf(l.rows)) && k < Count(l.rows) && KeyAt(l.rows, k) == path
    ensures Idle(l, path, raw) <==> raw.Some? && Unquote(ValText(ValAt(l.rows, k))) == Unquote(raw.value)
  {
    hide Unquote, Wf, RowWalk, ValText;
    SameVal(l.rows, k);
    WalkAt(l.rows, k, ValAt(l.rows, k), path);
  }

  lemma TableUnquoted(l: Layout)
    ensures Unquote(TableText(l)) == TableText(l)
  {
    hide BodyText;
    var raw := TableText(l);
    assert raw[0] == '{';
    if |raw| >= 3 {
      assert raw[0..3][0] == raw[0];
    }
  }

  lemma RowsStay(r: Rows, k: nat, v: RVal)
    requires k < Count(r)
    ensures SetVal(r, k, v).Row? && r.Row?
  {
  }

  lemma GoodText(r: string)
    requires ValueToken(r)
    ensures GoodVal(RText(r))
  {
  }

  lemma GoodParts(l: Layout)
    ensures Good(l) <==> Blanks(l.blank) && GoodRows(l.rows) && (l.rows.Row? ==> l.blank == "")
  {
  }

  lemma NewCase(pre: string, l: Layout, post: string, path: Path, raw: Option<string>, keep: bool) returns (l': Layout)
    requires Settable(l, path, raw) && !HasKey(TreeOf(l.rows), path) && !HasHost(TreeOf(l.rows), path)
    ensures Refined(pre, l, l', post, path, raw, keep)
    ensures raw.None? ==> l' == l
  {
    hide Around, RowItems, RowsText, GoodRows, ValueToken, PlainPath, InlineAdd, InRange, AllRanged, KeyAt, BodyText, Dotted,
      KeyToken, InlineSet, SetKey, AddRow, AnyBelow, RowWalk;
    var s, items := Around(pre, l, post), RowItems(l.rows, |pre| + 1);
    ReadAround(pre, l, post);
    FindsNothing(l.rows, |pre| + 1, path);
    SetNew(s, |pre|, path, raw);
    SetKeyNew(TreeOf(l.rows), path, raw, keep);
    l' := l;
    if raw.Some? {
      l' := AddRow(l, path, raw.value);
      NewRowCase(pre, l, post, path, raw.value);
    }
  }

  // A row added apart from a path changes nothing for it.
  lemma AddedWalk(l: Layout, path: Path, raw: string)
    requires KeyPath(Dotted(path) + " ") == path
    ensures forall q :: !Comparable(q, path) ==> RowWalk(AddRow(l, path, raw).rows, q) == RowWalk(l.rows, q)
  {
    hide KeyPath, Dotted, RowWalk;
    forall q | !Comparable(q, path) ensures RowWalk(AddRow(l, path, raw).rows, q) == RowWalk(l.rows, q) {
      WalkOffAdd(l.rows, path, raw, q);
    }
  }

  lemma FindsNothing(r: Rows, o: nat, path: Path)
    requires !HasKey(TreeOf(r), path) && !HasHost(TreeOf(r), path)
    ensures var items := RowItems(r, o);
            FindKey(items, path) == |items| && FindHost(items, path) == |items| && (AnyBelow(items, path) <==> HasBelow(TreeOf(r), path))
  {
    hide RowItems, FindKey, FindHost, AnyBelow, HasKey, HasHost, HasBelow;
    FindsKey(r, o, path);
    FindsHost(r, o, path);
    FindsBelow(r, o, path);
    ItemCount(r, o);
  }

  lemma NewRowCase(pre: string, l: Layout, post: string, path: Path, raw: string)
    requires Good(l) && PlainPath(path) && ValueToken(raw)
    ensures var s, items, close, l' := Around(pre, l, post), RowItems(l.rows, |pre| + 1), |pre| + 1 + |BodyText(l)|, AddRow(l, path, raw);
            && close <= |s| && AllRanged(s, items)
            && InlineAdd(s, |pre|, items, close, Dotted(path) + " = " + raw) == Around(pre, l', post)
            && Good(l') && TreeOf(l'.rows) == Append(TreeOf(l.rows), path, Leaf(raw))
            && forall q :: !Comparable(q, path) ==> RowWalk(l'.rows, q) == RowWalk(l.rows, q)
  {
    hide Around, RowItems, GoodRows, ValueToken, PlainPath, InlineAdd, AllRanged, BodyText, Dotted, KeyToken, AddRow, Good, RowWalk;
    AddCase(pre, l, post, path, raw);
    DottedReads(path);
    AddRowGood(l, path, raw);
    AddRowTree(l, path, raw);
    AddedWalk(l, path, raw);
  }

  lemma AddRowGood(l: Layout, path: Path, raw: string)
    requires Good(l) && KeyToken(Dotted(path) + " ") && ValueToken(raw)
    ensures Good(AddRow(l, path, raw))
  {
    hide KeyToken, ValueToken, Dotted, Blanks;
    OneBlankGood();
    AddGood(l.rows, path, raw);
  }

  // The operation on the text, when the key is found nowhere.
  lemma SetNew(s: string, open: nat, path: Path, raw: Option<string>)
    requires InlineItems(s, open).Some? && InRange(s, open, InlineItems(s, open).value)
    requires var items := InlineItems(s, open).value.items; FindKey(items, path) == |items| && FindHost(items, path) == |items|
    ensures var t := InlineItems(s, open).value;
            InlineSet(s, open, path, raw) ==
            if AnyBelow(t.items, path) then None
            else match raw case None => Some(s) case Some(r) => Some(InlineAdd(s, open, t.items, t.close, Dotted(path) + " = " + r))
  {
    hide InlineItems, AnyBelow, InlineAdd, Dotted, FindKey, FindHost, InlineDrop, Unquote;
  }

  lemma SetKeyNew(t: Tab, path: Path, raw: Option<string>, keep: bool)
    requires !HasKey(t, path) && !HasHost(t, path)
    ensures SetKey(t, path, raw, keep) == if HasBelow(t, path) then None
                                    else match raw case None => Some(t) case Some(r) => Some(Append(t, path, Leaf(r)))
  {
    hide HasKey, HasHost, HasBelow, Append;
  }

  lemma AddRowTree(l: Layout, path: Path, raw: string)
    requires KeyPath(Dotted(path) + " ") == path
    ensures TreeOf(AddRow(l, path, raw).rows) == Append(TreeOf(l.rows), path, Leaf(raw))
  {
    hide KeyPath, Dotted;
    if l.rows.Row? {
      AddTree(l.rows, path, raw);
    } else {
      assert TreeOf(NewRow(path, raw, " ")) == Item(KeyPath(Dotted(path) + " "), Leaf(raw), Nil);
    }
  }

  // ---- Keys inside nested tables ----

  lemma HostParts(l: Layout, o: nat, path: Path) returns (k: nat)
    requires Good(l) && HasHost(TreeOf(l.rows), path)
    ensures k < Count(l.rows) && |RowItems(l.rows, o)| == Count(l.rows)
    ensures k == FindHost(RowItems(l.rows, o), path) && RowItems(l.rows, o)[k].key == KeyAt(l.rows, k)
    ensures var key := KeyAt(l.rows, k);
            key == HostKey(TreeOf(l.rows), path) && Under(key, path) && HasKey(TreeOf(l.rows), key) && First(l.rows, k)
            && ValueAt(TreeOf(l.rows), key) == ValOf(ValAt(l.rows, k))
    ensures GoodVal(ValAt(l.rows, k)) && ValAt(l.rows, k) < l.rows
  {
    hide RowItems, KeyAt, First, NoHostBefore, GoodVal, GoodRows, HostKey, HasHost, HasKey;
    FindsHost(l.rows, o, path);
    k := FindHost(RowItems(l.rows, o), path);
    HostUnder(l.rows, k, path);
    HostIsFirst(l.rows, k, path);
    RowTree(l.rows, k, RText(""));
    GoodParts(l);
    ValAtGood(l.rows, k);
    ItemAt(l.rows, o, k);
  }

  lemma HostUnder(r: Rows, k: nat, p: Path)
    requires k < Count(r) && NoHostBefore(r, k, p)
    ensures Under(KeyAt(r, k), p)
  {
  }

  /** A nested table inside its text. */
  lemma NestedAround(pre: string, l: Layout, post: string, k: nat) returns (pre': string, post': string)
    requires Good(l) && k < Count(l.rows) && ValAt(l.rows, k).RTable?
    ensures var s, items := Around(pre, l, post), RowItems(l.rows, |pre| + 1);
            && k < |items| && items[k].vs == |pre'|
            && s == Around(pre', ValAt(l.rows, k).lay, post')
    ensures forall m :: Around(pre', m, post') == Around(pre, l.(rows := SetVal(l.rows, k, RTable(m))), post)
  {
    hide TableText, RowItems, ValAt, SetVal, Good;
    var s, it := Around(pre, l, post), RowItems(l.rows, |pre| + 1)[k] by { ReadAround(pre, l, post); }
    SetCase(pre, l, post, k, RText(""));
    pre', post' := s[..it.vs], s[it.ve..];
    assert s == pre' + s[it.vs..it.ve] + post';
    forall m ensures Around(pre', m, post') == Around(pre, l.(rows := SetVal(l.rows, k, RTable(m))), post) {
      SetCase(pre, l, post, k, RTable(m));
    }
  }

  // The operation on the text, when the key belongs to a nested value.
  lemma SetHost(s: string, open: nat, path: Path, raw: Option<string>, p: nat)
    requires InlineItems(s, open).Some? && InRange(s, open, InlineItems(s, open).value)
    requires var items := InlineItems(s, open).value.items;
             FindKey(items, path) == |items| && p == FindHost(items, path) < |items|
    ensures var it := InlineItems(s, open).value.items[p];
            InlineSet(s, open, path, raw) ==
            if it.vs >= |s| || s[it.vs] != '{' then None
            else
              match InlineSet(s, it.vs, path[|it.key|..], raw)
              case None => None
              case Some(sub) => AfterNested(s, sub, open, it.vs, p)
  {
    hide InlineItems, AnyBelow, InlineAdd, Dotted, FindKey, FindHost, InlineDrop, Unquote, AfterNested;
  }

  lemma SetKeyHost(t: Tab, path: Path, raw: Option<string>, keep: bool)
    requires !HasKey(t, path) && HasHost(t, path) && HasKey(t, HostKey(t, path))
    ensures var k := HostKey(t, path); var val := ValueAt(t, k);
            |k| <= |path| && SetKey(t, path, raw, keep) ==
            if val.Leaf? then None
            else
              match SetKey(val.tab, path[|k|..], raw, keep)
              case None => None
              case Some(sub) =>
                if sub == val.tab then Some(t) else if sub == Nil then Some(Drop(t, k)) else Some(Replace(t, k, Sub(sub)))
  {
    hide HasKey, HasHost, HostKey, ValueAt, Drop, Replace;
    HostIsKey(t, path);
  }

  // A plain value does not open a table.
  lemma TextHost(pre: string, l: Layout, post: string, path: Path, raw: Option<string>, keep: bool, k: nat)
    requires Settable(l, path, raw) && !HasKey(TreeOf(l.rows), path) && HasHost(TreeOf(l.rows), path)
    requires k < Count(l.rows) && ValAt(l.rows, k).RText? && GoodVal(ValAt(l.rows, k))
    requires k == FindHost(RowItems(l.rows, |pre| + 1), path)
    requires HasKey(TreeOf(l.rows), HostKey(TreeOf(l.rows), path))
    requires ValueAt(TreeOf(l.rows), HostKey(TreeOf(l.rows), path)) == ValOf(ValAt(l.rows, k))
    ensures Refined(pre, l, l, post, path, raw, keep)
  {
    hide Around, RowItems, GoodRows, GoodVal, Good, ValueToken, PlainPath, InRange, BodyText, InlineSet, SetKey, HostKey,
      HasHost, HasKey, ValueAt, ValAt, FindHost, FindKey, AfterNested, TreeOf;
    var s, items := Around(pre, l, post), RowItems(l.rows, |pre| + 1);
    ReadAround(pre, l, post);
    FindsKey(l.rows, |pre| + 1, path);
    SetKeyHost(TreeOf(l.rows), path, raw, keep);
    SetHost(s, |pre|, path, raw, k);
    TextOpens(pre, l, post, k);
    ValTree(ValAt(l.rows, k));
  }

  lemma TextOpens(pre: string, l: Layout, post: string, k: nat)
    requires Good(l) && k < Count(l.rows) && ValAt(l.rows, k).RText? && GoodVal(ValAt(l.rows, k))
    ensures var s, items := Around(pre, l, post), RowItems(l.rows, |pre| + 1);
            k < |items| && items[k].vs < |s| && s[items[k].vs] != '{'
  {
    hide Around, RowItems, GoodRows, ValueToken, ValAt, SetVal, Good;
    var s, items := Around(pre, l, post), RowItems(l.rows, |pre| + 1);
    SetCase(pre, l, post, k, RText(""));
    var v := ValAt(l.rows, k).raw;
    ValueNotEmpty(v);
    FirstOfValue(v);
    assert ValText(ValAt(l.rows, k)) == v;
    NotBrace(s, items[k].vs, items[k].ve, v);
  }

  lemma ValueNotEmpty(raw: string)
    requires ValueToken(raw)
    ensures raw != []
  {
  }

  lemma NotBrace(s: string, vs: nat, ve: nat, v: string)
    requires vs <= ve <= |s| && s[vs..ve] == v && v != [] && v[0] != '{'
    ensures vs < |s| && s[vs] != '{'
  {
    assert s[vs..ve][0] == s[vs];
  }

  lemma OpensBrace(pre: string, l: Layout, post: string)
    ensures |Around(pre, l, post)| > |pre| && Around(pre, l, post)[|pre|] == '{'
  {
    hide BodyText;
    BodyInside(pre, l, post);
    var s := Around(pre, l, post);
    AtChar(s, |pre|, TableText(l), 0);
  }

  /** The key belongs to nested table `k`, of which `m` is the new text: the host follows. */
  lemma NestedCase(pre: string, l: Layout, post: string, path: Path, raw: Option<string>, keep: bool,
                   k: nat, pre': string, post': string, m: Layout) returns (l': Layout)
    requires Settable(l, path, raw) && !HasKey(TreeOf(l.rows), path) && HasHost(TreeOf(l.rows), path)
    requires k < Count(l.rows) && ValAt(l.rows, k).RTable? && Good(ValAt(l.rows, k).lay) && First(l.rows, k)
    requires k == FindHost(RowItems(l.rows, |pre| + 1), path) && |RowItems(l.rows, |pre| + 1)| == Count(l.rows)
    requires RowItems(l.rows, |pre| + 1)[k].key == KeyAt(l.rows, k) == HostKey(TreeOf(l.rows), path)
    requires HasKey(TreeOf(l.rows), KeyAt(l.rows, k)) && Under(KeyAt(l.rows, k), path)
    requires ValueAt(TreeOf(l.rows), KeyAt(l.rows, k)) == ValOf(ValAt(l.rows, k))
    requires RowItems(l.rows, |pre| + 1)[k].vs == |pre'| && Around(pre, l, post) == Around(pre', ValAt(l.rows, k).lay, post')
    requires forall x :: Around(pre', x, post') == Around(pre, l.(rows := SetVal(l.rows, k, RTable(x))), post)
    requires Wf(TreeOf(l.rows)) && Refined(pre', ValAt(l.rows, k).lay, m, post', path[|KeyAt(l.rows, k)|..], raw, keep)
    requires ValAt(l.rows, k).lay.rows.NoRows? && raw.None? ==> m == ValAt(l.rows, k).lay
    requires keep ==> m == ValAt(l.rows, k).lay
    ensures Refined(pre, l, l', post, path, raw, keep)
    ensures ValAt(l.rows, k).RTable? && m == ValAt(l.rows, k).lay && SetKey(TreeOf(l.rows), path, raw, keep).Some? ==> l' == l
  {
    hide Around, RowItems, GoodRows, ValueToken, PlainPath, InRange, BodyText, InlineSet, SetKey, HostKey, HasHost, HasKey, Wf, RowWalk,
      ValueAt, ValAt, FindHost, FindKey, KeyAt, First, Good, AfterNested, SetVal, DropAt, DropRow, TreeOf, InlineDrop;
    var s := Around(pre, l, post);
    var lay, key := ValAt(l.rows, k).lay, KeyAt(l.rows, k);
    ReadAround(pre, l, post);
    FindsKey(l.rows, |pre| + 1, path);
    SetKeyHost(TreeOf(l.rows), path, raw, keep);
    SetHost(s, |pre|, path, raw, k);
    OpensBrace(pre', lay, post');
    ValTree(ValAt(l.rows, k));
    var next := SetKey(TreeOf(lay.rows), path[|key|..], raw, keep);
    if next.None? {
      l' := l;
    } else {
      var l1 := l.(rows := SetVal(l.rows, k, RTable(m)));
      NoRowsTree(m.rows);
      NoRowsTree(lay.rows);
      NilKept(TreeOf(lay.rows), path[|key|..], raw, keep);
      HostAfter(pre, l, post, k, pre', post', m);
      RowTree(l.rows, k, RTable(m));
      ValTree(RTable(m));
      HostGood(l, k, m);
      SameReplaced(TreeOf(l.rows), key);
      SameVal(l.rows, k);
      if next.value != TreeOf(lay.rows) && next.value == Nil {
        l' := DropRow(l1, k);
        DropRowGood(l1, k);
        DropSame(l.rows, k, RTable(m));
        DropRowTree(l1, k);
        DroppedWalk(l, k, m, path);
      } else {
        l' := l1;
        NestedWalk(l, k, m, path);
      }
    }
  }

  // Paths apart from the key, once the nested table is `m`.
  lemma NestedWalk(l: Layout, k: nat, m: Layout, path: Path)
    requires Wf(TreeOf(l.rows)) && k < Count(l.rows) && ValAt(l.rows, k).RTable? && Under(KeyAt(l.rows, k), path)
    requires forall q :: !Comparable(q, path[|KeyAt(l.rows, k)|..]) ==> RowWalk(m.rows, q) == RowWalk(ValAt(l.rows, k).lay.rows, q)
    ensures forall q :: !Comparable(q, path) ==> RowWalk(SetVal(l.rows, k, RTable(m)), q) == RowWalk(l.rows, q)
  {
    hide RowWalk, KeyAt, Wf, SetVal, ValAt;
    var key, v := KeyAt(l.rows, k), ValAt(l.rows, k);
    forall q | !Comparable(q, path) ensures RowWalk(SetVal(l.rows, k, RTable(m)), q) == RowWalk(l.rows, q) {
      SplitPath(key, q, path);
      if key <= q {
        assert !Comparable(q[|key|..], path[|key|..]);
        WalkAt(l.rows, k, RTable(m), q);
        WalkAt(l.rows, k, v, q);
        SameVal(l.rows, k);
      } else {
        WalkOffSet(l.rows, k, RTable(m), q);
      }
    }
  }

  // The same, once the nested table is empty and its row dropped.
  lemma DroppedWalk(l: Layout, k: nat, m: Layout, path: Path)
    requires Wf(TreeOf(l.rows)) && k < Count(l.rows) && ValAt(l.rows, k).RTable? && Under(KeyAt(l.rows, k), path) && m.rows.NoRows?
    requires forall q :: !Comparable(q, path[|KeyAt(l.rows, k)|..]) ==> RowWalk(m.rows, q) == RowWalk(ValAt(l.rows, k).lay.rows, q)
    ensures var l1 := l.(rows := SetVal(l.rows, k, RTable(m)));
            k < Count(l1.rows) && forall q :: !Comparable(q, path) ==> RowWalk(DropRow(l1, k).rows, q) == RowWalk(l.rows, q)
  {
    hide RowWalk, KeyAt, Wf, SetVal, ValAt, DropAt;
    var key, v, l1 := KeyAt(l.rows, k), ValAt(l.rows, k), l.(rows := SetVal(l.rows, k, RTable(m)));
    DropSame(l.rows, k, RTable(m));
    DroppedRows(l.rows, k, RTable(m));
    forall q | !Comparable(q, path) ensures RowWalk(DropAt(l1.rows, k), q) == RowWalk(l.rows, q) {
      SplitPath(key, q, path);
      if key <= q {
        assert !Comparable(q[|key|..], path[|key|..]);
        WalkGone(l.rows, k, q);
        WalkAt(l.rows, k, v, q);
        SameVal(l.rows, k);
        EmptyWalk(m.rows, q[|key|..]);
      } else {
        WalkOffDrop(l.rows, k, q);
      }
    }
  }

  lemma EmptyWalk(r: Rows, q: Path)
    requires r.NoRows?
    ensures RowWalk(r, q).Free?
  {
  }

  lemma {:induction false} DroppedRows(r: Rows, k: nat, v: RVal)
    requires k < Count(r)
    ensures Count(SetVal(r, k, v)) == Count(r) && DropAt(SetVal(r, k, v), k) == DropAt(r, k)
  {
    if k > 0 {
      DroppedRows(r.rest, k - 1, v);
    }
  }

  lemma DropRowTree(l: Layout, k: nat)
    requires k < Count(l.rows)
    ensures TreeOf(DropRow(l, k).rows) == TreeOf(DropAt(l.rows, k))
  {
  }

  // Writing into a table never leaves it empty.
  lemma NilKept(t: Tab, path: Path, raw: Option<string>, keep: bool)
    ensures t == Nil && SetKey(t, path, raw, keep) == Some(Nil) ==> raw.None?
  {
  }

  lemma ValTree(v: RVal)
    ensures ValOf(v) == if v.RText? then Leaf(v.raw) else Sub(TreeOf(v.lay.rows))
  {
  }

  lemma NoRowsTree(r: Rows)
    ensures TreeOf(r) == Nil <==> r.NoRows?
  {
  }

  lemma HostGood(l: Layout, k: nat, m: Layout)
    requires Good(l) && Good(m) && k < Count(l.rows)
    ensures Good(l.(rows := SetVal(l.rows, k, RTable(m)))) && Count(SetVal(l.rows, k, RTable(m))) == Count(l.rows)
  {
    hide GoodRows, Blanks;
    assert GoodVal(RTable(m));
    SetValGood(l.rows, k, RTable(m));
    RowsStay(l.rows, k, RTable(m));
  }

  // A row changed and then dropped is dropped.
  lemma {:induction false} DropSame(r: Rows, k: nat, v: RVal)
    requires k < Count(r)
    ensures Count(SetVal(r, k, v)) == Count(r) && TreeOf(DropAt(SetVal(r, k, v), k)) == TreeOf(DropAt(r, k))
  {
    hide KeyPath;
    if k > 0 {
      DropSame(r.rest, k - 1, v);
      if Count(r.rest) == 1 {
        LastTree(r);
        LastTree(SetVal(r, k, v));
      }
    }
  }

  // The text of the host once its nested table is `m`; an emptied one leaves.
  lemma HostAfter(pre: string, l: Layout, post: string, k: nat, pre': string, post': string, m: Layout)
    requires Good(l) && Good(m) && k < Count(l.rows) && ValAt(l.rows, k).RTable? && Good(ValAt(l.rows, k).lay)
    requires |RowItems(l.rows, |pre| + 1)| == Count(l.rows) && RowItems(l.rows, |pre| + 1)[k].vs == |pre'|
    requires Around(pre, l, post) == Around(pre', ValAt(l.rows, k).lay, post')
    requires Around(pre', m, post') == Around(pre, l.(rows := SetVal(l.rows, k, RTable(m))), post)
    requires ValAt(l.rows, k).lay.rows.NoRows? && m.rows.NoRows? ==> m == ValAt(l.rows, k).lay
    ensures var s, sub, l1 := Around(pre, l, post), Around(pre', m, post'), l.(rows := SetVal(l.rows, k, RTable(m)));
            Count(l1.rows) == Count(l.rows) &&
            AfterNested(s, sub, |pre|, |pre'|, k)
            == Some(if m.rows.NoRows? && !ValAt(l.rows, k).lay.rows.NoRows? then Around(pre, DropRow(l1, k), post) else sub)
  {
    hide Around, RowItems, BodyText, ValAt, Good, SetVal, DropRow, InlineDrop, InlineEmpty, InRange;
    var s, sub, l1 := Around(pre, l, post), Around(pre', m, post'), l.(rows := SetVal(l.rows, k, RTable(m)));
    HostGood(l, k, m);
    EmptyAround(pre', m, post');
    if s == sub {
      SameTextSameRows(pre', ValAt(l.rows, k).lay, m, post');
    }
    ReadAround(pre, l1, post);
    DropCase(pre, l1, post, k);
  }

  lemma SuffixPlain(path: Path, n: nat)
    requires PlainPath(path) && n < |path|
    ensures PlainPath(path[n..])
  {
    hide Name;
    assert forall i :: 0 <= i < |path[n..]| ==> path[n..][i] == path[n + i];
  }

  /** The text operation does what the tree operation does, and touches nothing outside the braces. */
  lemma {:induction false} SetRefines(pre: string, l: Layout, post: string, path: Path, raw: Option<string>) returns (l': Layout)
    requires Settable(l, path, raw) && Wf(TreeOf(l.rows))
    ensures Refined(pre, l, l', post, path, raw, KeepsText(l, path, raw))
    ensures l.rows.NoRows? && raw.None? ==> l' == l
    ensures (KeepsText(l, path, raw) || Idle(l, path, raw)) && SetKey(TreeOf(l.rows), path, raw, KeepsText(l, path, raw)).Some? ==> l' == l
    decreases l
  {
    hide Idle, Around, RowItems, Good, GoodRows, GoodVal, ValueToken, PlainPath, Refined, TreeOf, Wf, HasKey, HasHost, HostKey,
      ValueAt, ValAt, KeyAt, First, FindHost, KeepsText;
    var t, keep := TreeOf(l.rows), KeepsText(l, path, raw);
    NoRowsTree(l.rows);
    KeyOfNone(t, path);
    if HasKey(t, path) {
      l' := FoundCase(pre, l, post, path, raw, keep);
    } else if HasHost(t, path) {
      var k := HostParts(l, |pre| + 1, path);
      var v, key := ValAt(l.rows, k), KeyAt(l.rows, k);
      ValTree(v);
      HasAtKey(t, key, path, "");
      if v.RText? {
        TextHost(pre, l, post, path, raw, keep, k);
        l' := l;
      } else {
        var pre', post' := NestedAround(pre, l, post, k);
        SuffixPlain(path, |key|);
        NestedGood(v);
        NestedKeeps(l, k, path, raw);
        var m := SetRefines(pre', v.lay, post', path[|key|..], raw);
        KeptSome(v.lay, path[|key|..], raw);
        IdleSome(v.lay, path[|key|..], raw);
        l' := NestedCase(pre, l, post, path, raw, keep, k, pre', post', m);
      }
    } else {
      NewNotKept(l, path, raw);
      NewNotIdle(l, path, raw);
      l' := NewCase(pre, l, post, path, raw, keep);
    }
  }

  lemma KeptSome(l: Layout, path: Path, raw: Option<string>)
    requires Wf(TreeOf(l.rows)) && PlainPath(path)
    ensures KeepsText(l, path, raw) ==> SetKey(TreeOf(l.rows), path, raw, KeepsText(l, path, raw)).Some?
  {
    hide RowWalk, Walk, Wf, SetKey, TableText, Unquote, Changed;
    SetLaw(TreeOf(l.rows), path, raw, KeepsText(l, path, raw));
    RowWalkTree(l.rows, path);
  }

  lemma IdleSome(l: Layout, path: Path, raw: Option<string>)
    requires Wf(TreeOf(l.rows)) && PlainPath(path)
    ensures Idle(l, path, raw) ==> SetKey(TreeOf(l.rows), path, raw, KeepsText(l, path, raw)).Some?
  {
    hide RowWalk, Walk, Wf, SetKey, ValText, Unquote, Changed, KeepsText;
    SetLaw(TreeOf(l.rows), path, raw, KeepsText(l, path, raw));
    RowWalkTree(l.rows, path);
  }

  lemma NewNotIdle(l: Layout, path: Path, raw: Option<string>)
    requires !HasKey(TreeOf(l.rows), path) && !HasHost(TreeOf(l.rows), path)
    ensures Idle(l, path, raw) ==> raw.None?
  {
    hide RowWalk, Walk, HasKey, HasHost, HasBelow, ValText, Unquote;
    RowWalkTree(l.rows, path);
    WalkFree(TreeOf(l.rows), path);
  }

  lemma NewNotKept(l: Layout, path: Path, raw: Option<string>)
    requires !HasKey(TreeOf(l.rows), path) && !HasHost(TreeOf(l.rows), path)
    ensures !KeepsText(l, path, raw)
  {
    hide RowWalk, Walk, HasKey, HasHost, HasBelow, TableText, Unquote;
    RowWalkTree(l.rows, path);
    WalkFree(TreeOf(l.rows), path);
  }

  lemma NestedKeeps(l: Layout, k: nat, path: Path, raw: Option<string>)
    requires Wf(TreeOf(l.rows)) && k < Count(l.rows) && ValAt(l.rows, k).RTable? && Under(KeyAt(l.rows, k), path)
    ensures KeepsText(ValAt(l.rows, k).lay, path[|KeyAt(l.rows, k)|..], raw) == KeepsText(l, path, raw)
    ensures Idle(ValAt(l.rows, k).lay, path[|KeyAt(l.rows, k)|..], raw) == Idle(l, path, raw)
  {
    hide Wf, RowWalk, TableText, ValText, Unquote;
    SameVal(l.rows, k);
    WalkAt(l.rows, k, ValAt(l.rows, k), path);
  }

  lemma KeyOfNone(t: Tab, path: Path)
    ensures HasKey(t, path) || HasHost(t, path) ==> t != Nil
  {
  }

  lemma NestedGood(v: RVal)
    requires GoodVal(v)
    ensures v.RTable? ==> Good(v.lay)
  {
  }

  /** The text holds a well-formed table, between the same texts, of this tree. */
  ghost predicate HoldsTree(s: string, pre: string, post: string, t: Tab) {
    exists l :: Good(l) && s == Around(pre, l, post) && TreeOf(l.rows) == t
  }

  /** Put and removal law on texts, for every key: refused exactly when a plain value stands above the
      key, or when the key stands above others without being one. Otherwise the key holds the value
      written, or none, with nothing below it; every other value and the text outside the braces are
      as before. Nothing to do leaves the text: the value is already there, or the key to remove leads
      nowhere. So does writing the very text of the table found. */
  lemma InlineSetLaw(pre: string, l: Layout, post: string, path: Path, raw: Option<string>)
    requires Settable(l, path, raw) && Wf(TreeOf(l.rows))
    ensures var t, s := TreeOf(l.rows), Around(pre, l, post);
            var got := InlineSet(s, |pre|, path, raw);
            && (got.None? <==> Blocked(t, path) || Walk(t, path).Above?)
            && (got.Some? ==>
                  && (if KeepsText(l, path, raw) then got.value == s
                      else exists t' :: HoldsTree(got.value, pre, post, t') && Changed(t, t', path, raw))
                  && (Idle(l, path, raw) ==> got.value == s))
  {
    hide Idle, Around, Good, ValueToken, Wf, TreeOf, SetKey, InlineSet, Changed, Blocked, KeepsText, RowWalk, Walk;
    var keep, t := KeepsText(l, path, raw), TreeOf(l.rows);
    var l' := SetRefines(pre, l, post, path, raw);
    assert path != [] by { assert PlainPath(path); }
    SetLaw(t, path, raw, keep);
    StuckIsBlocked(t, path);
    KeptIsTable(l, path, raw);
    if InlineSet(Around(pre, l, post), |pre|, path, raw).Some? {
      assert HoldsTree(Around(pre, l', post), pre, post, TreeOf(l'.rows));
    }
  }

  // ---- A table that is left ----

  const EMPTY := Layout(NoRows, "")

  const NESTED := Layout(Row("", "a ", "", RTable(EMPTY), "", NoRows), "")

  /** The string `{}` written at a key that holds the table `{}`: the text stays, and the key still
      holds a table, not the string. */
  lemma TableLeft()
    ensures InlineSet("{a ={}}", 0, ["a"], Some("\"{}\"")) == Some("{a ={}}")
    ensures Good(NESTED) && TableText(NESTED) == "{a ={}}" && Unquote("\"{}\"") == "{}"
    ensures !Has(TreeOf(NESTED.rows), ["a"], "{}")
  {
    hide InlineSet, Changed;
    NestedReads();
    QuotedBraces();
    InlineSetLaw("", NESTED, "", ["a"], Some("\"{}\""));
    assert Around("", NESTED, "") == "{a ={}}";
    assert !Blocked(TreeOf(NESTED.rows), ["a"]);
  }

  lemma NestedReads()
    ensures Good(NESTED) && TableText(NESTED) == "{a ={}}" && PlainPath(["a"])
    ensures TreeOf(NESTED.rows) == Item(["a"], Sub(Nil), Nil) && RowWalk(NESTED.rows, ["a"]) == Leads(RTable(EMPTY))
  {
    hide KeyPath, KeyToken;
    assert Dotted(["a"]) + " " == "a ";
    DottedReads(["a"]);
  }

  lemma QuotedBraces()
    ensures ValueToken("\"{}\"") && Unquote("\"{}\"") == "{}"
  {
    var raw := "\"{}\"";
    assert raw[1..3] == "{}";
    assert "{}"[1..] == "}" && "}"[1..] == "";
  }

  lemma KeptIsTable(l: Layout, path: Path, raw: Option<string>)
    ensures KeepsText(l, path, raw) <==> KeptTable(TreeOf(l.rows), path, raw, KeepsText(l, path, raw))
  {
    hide RowWalk, Walk, Unquote, TableText;
    RowWalkTree(l.rows, path);
  }
}
