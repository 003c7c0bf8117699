/** Editing the text of an inline table is editing its rows. */
module InlineEdits {
  import opened Wrappers
  import opened TomlStrings
  import opened TomlText
  import opened InlineTables
  import opened InlineScan
  import opened InlineText
  import opened InlineLayout
  import opened InlineRead

  // ---- Edits of rows ----

  function Count(r: Rows): nat {
    match r
    case NoRows => 0
    case Row(_, _, _, _, _, rest) => 1 + Count(rest)
  }

  function SetVal(r: Rows, k: nat, v: RVal): Rows
    requires k < Count(r)
  {
    if k == 0 then r.(val := v) else r.(rest := SetVal(r.rest, k - 1, v))
  }

  /** Row `k` leaves; the blanks of the last row stay in front of the brace. */
  function DropAt(r: Rows, k: nat): Rows
    requires k < Count(r)
  {
    if k == 0 then (if r.rest.NoRows? then NoRows else r.rest.(lead := r.lead))
    else if k == 1 && Count(r.rest) == 1 then r.(trail := r.trail + r.rest.trail, rest := NoRows)
    else r.(rest := DropAt(r.rest, k - 1))
  }

  function NewRow(path: Path, raw: string, trail: string): Rows {
    Row(" ", Dotted(path) + " ", " ", RText(raw), trail, NoRows)
  }

  function AddLast(r: Rows, path: Path, raw: string): Rows
    requires r.Row?
  {
    if r.rest.NoRows? then r.(trail := "", rest := NewRow(path, raw, r.trail))
    else r.(rest := AddLast(r.rest, path, raw))
  }

  function DropRow(l: Layout, k: nat): Layout
    requires k < Count(l.rows)
  {
    Layout(DropAt(l.rows, k), if Count(l.rows) == 1 then l.rows.lead + l.rows.trail else l.blank)
  }

  function AddRow(l: Layout, path: Path, raw: string): Layout {
    Layout(if l.rows.NoRows? then NewRow(path, raw, " ") else AddLast(l.rows, path, raw), "")
  }

  // ---- Texts cut in three ----

  lemma Cut3(s: string, a: string, m: string, c: string)
    requires s == a + m + c
    ensures |a| + |m| <= |s| && s[..|a|] == a && s[|a| + |m|..] == c && s[|a|..|a| + |m|] == m
  {
  }

  lemma {:induction false} ItemCount(r: Rows, o: nat)
    ensures |RowItems(r, o)| == Count(r)
  {
    if r.Row? {
      ItemCount(r.rest, o + |RowText(r)| + 1);
    }
  }

  /** The text of the rows behind the first one, with its comma. */
  function Tail(r: Rows): string
    requires r.Row?
  {
    if r.rest.NoRows? then [] else "," + RowsText(r.rest)
  }

  lemma Assoc(a: string, b: string, c: string)
    ensures (a + b) + c == a + (b + c)
  {
  }

  // A row inside a text, in several groupings.
  lemma RowGroups(pre: string, h: string, v: string, t: string, l: string, post: string)
    ensures pre + (h + v + t + l) + post == (pre + h) + v + (t + l + post)
    ensures pre + (h + v + t + l) + post == (pre + (h + v + t)) + (l + post)
  {
    var x := h + v + t;
    Assoc(pre, x, l);
    Assoc(pre + x, l, post);
    Assoc(pre, h + v, t);
    Assoc(pre, h, v);
    Assoc((pre + h) + v, t, l + post);
    Assoc(t, l, post);
  }

  lemma RowsIs(r: Rows)
    requires r.Row?
    ensures RowsText(r) == HeadText(r) + ValText(r.val) + r.trail + Tail(r)
    ensures RowText(r) == HeadText(r) + ValText(r.val) + r.trail
    ensures r.rest.Row? ==> Tail(r) == "," + RowsText(r.rest)
    ensures r.rest.NoRows? ==> Tail(r) == []
  {
    hide HeadText, ValText;
  }

  lemma FirstRow(pre: string, r: Rows, post: string)
    requires r.Row?
    ensures pre + RowsText(r) + post == (pre + HeadText(r)) + ValText(r.val) + (r.trail + Tail(r) + post)
    ensures pre + RowsText(r) + post == (pre + RowText(r)) + (Tail(r) + post)
    ensures r.rest.Row? ==> pre + RowsText(r) + post == (pre + RowText(r) + ",") + RowsText(r.rest) + post
    ensures |pre + RowText(r) + ","| == |pre| + |RowText(r)| + 1
  {
    hide HeadText, ValText, RowsText, RowText, Tail;
    RowsIs(r);
    RowGroups(pre, HeadText(r), ValText(r.val), r.trail, Tail(r), post);
    if r.rest.Row? {
      var x := pre + RowText(r);
      Assoc(x, ",", RowsText(r.rest));
      Assoc(x, "," + RowsText(r.rest), post);
    }
  }

  // ---- Replacing a value ----

  lemma {:induction false} SetValText(pre: string, r: Rows, post: string, k: nat, v: RVal)
    requires k < Count(r)
    ensures k < |RowItems(r, |pre|)|
    ensures var s, it := pre + RowsText(r) + post, RowItems(r, |pre|)[k];
            && it.vs <= it.ve <= |s| && s[it.vs..it.ve] == ValText(ValAt(r, k))
            && s[..it.vs] + ValText(v) + s[it.ve..] == pre + RowsText(SetVal(r, k, v)) + post
    decreases r
  {
    hide ValText, HeadText, RowText, RowsText;
    ItemCount(r, |pre|);
    if k == 0 {
      SetFirstText(pre, r, post, v);
    } else {
      var pre' := pre + RowText(r) + ",";
      FirstRow(pre, r, post);
      SetValText(pre', r.rest, post, k - 1, v);
      var r' := r.(rest := SetVal(r.rest, k - 1, v));
      FirstRow(pre, r', post);
      SameRow(r, r'.rest);
    }
  }

  lemma SetFirstText(pre: string, r: Rows, post: string, v: RVal)
    requires r.Row?
    ensures var s, it := pre + RowsText(r) + post, FirstFound(r, |pre|);
            && it.vs <= it.ve <= |s| && s[it.vs..it.ve] == ValText(r.val)
            && s[..it.vs] + ValText(v) + s[it.ve..] == pre + RowsText(r.(val := v)) + post
  {
    hide ValText, HeadText, RowText, RowsText, Tail;
    FirstRow(pre, r, post);
    Cut3(pre + RowsText(r) + post, pre + HeadText(r), ValText(r.val), r.trail + Tail(r) + post);
    FirstRow(pre, r.(val := v), post);
    SameHead(r, v);
  }

  function ValAt(r: Rows, k: nat): RVal
    requires k < Count(r)
  {
    if k == 0 then r.val else ValAt(r.rest, k - 1)
  }

  lemma SameHead(r: Rows, v: RVal)
    requires r.Row?
    ensures HeadText(r.(val := v)) == HeadText(r) && Tail(r.(val := v)) == Tail(r)
  {
  }

  lemma SameRow(r: Rows, rest: Rows)
    requires r.Row?
    ensures RowText(r.(rest := rest)) == RowText(r) && HeadText(r.(rest := rest)) == HeadText(r)
  {
  }

  // ---- Removing a row ----

  /** The text of the rows without the blanks in front. */
  function SansLead(r: Rows): string
    requires r.Row?
  {
    r.key + "=" + r.gap + ValText(r.val) + r.trail + Tail(r)
  }

  lemma LeadFirst(r: Rows)
    requires r.Row?
    ensures RowsText(r) == r.lead + SansLead(r)
  {
    hide ValText, RowsText, Tail;
    RowsIs(r);
    LeadGroups(r.lead, r.key, r.gap, ValText(r.val), r.trail, Tail(r));
  }

  lemma LeadGroups(l: string, k: string, g: string, v: string, t: string, x: string)
    ensures (l + k + "=" + g) + v + t + x == l + (k + "=" + g + v + t + x)
  {
    Assoc(l, k, "=");
    Assoc(l, k + "=", g);
    Assoc(l, k + "=" + g, v);
    Assoc(l, k + "=" + g + v, t);
    Assoc(l, k + "=" + g + v + t, x);
  }

  lemma FirstDropped(pre: string, r: Rows, post: string)
    requires r.Row? && r.rest.Row?
    ensures var s := pre + RowsText(r) + post;
            && s == (pre + r.lead) + (SansLead(r) + post)
            && s == (pre + RowText(r) + "," + r.rest.lead) + (SansLead(r.rest) + post)
  {
    hide HeadText, ValText, RowsText, RowText, SansLead;
    var q := r.rest;
    FirstRow(pre, r, post);
    LeadFirst(r);
    LeadFirst(q);
    Assoc(pre, r.lead, SansLead(r));
    Assoc(pre + r.lead, SansLead(r), post);
    var x := pre + RowText(r) + ",";
    Assoc(x, q.lead, SansLead(q));
    Assoc(x + q.lead, SansLead(q), post);
  }

  lemma Cut2(s: string, a: string, c: string)
    requires s == a + c
    ensures |a| <= |s| && s[..|a|] == a && s[|a|..] == c
  {
  }

  lemma DropFirstText(pre: string, r: Rows, post: string)
    requires r.Row? && r.rest.Row?
    ensures var s, items := pre + RowsText(r) + post, RowItems(r, |pre|);
            && |items| >= 2 && items[0].ks <= |s| && items[1].ks <= |s|
            && s[..items[0].ks] + s[items[1].ks..] == pre + RowsText(DropAt(r, 0)) + post
  {
    hide ValText, HeadText, RowText, RowsText, SansLead;
    var s := pre + RowsText(r) + post;
    var q := r.rest;
    ItemCount(r, |pre|);
    ItemCount(q, |pre| + |RowText(r)| + 1);
    FirstDropped(pre, r, post);
    Cut2(s, pre + r.lead, SansLead(r) + post);
    Cut2(s, pre + RowText(r) + "," + q.lead, SansLead(q) + post);
    var d := q.(lead := r.lead);
    LeadFirst(d);
    SameSans(q, r.lead);
    Assoc(pre, r.lead, SansLead(d));
    Assoc(pre + r.lead, SansLead(d), post);
  }

  lemma SameSans(r: Rows, lead: string)
    requires r.Row?
    ensures SansLead(r.(lead := lead)) == SansLead(r)
  {
  }

  lemma {:induction false} CommaAt(s: string, i: nat, e: nat)
    requires i <= e < |s| && s[e] == ',' && forall k :: i <= k < e ==> s[k] != ','
    ensures FindComma(s, i) == e
    decreases e - i
  {
    if i < e {
      CommaAt(s, i + 1, e);
    }
  }

  lemma CommaFound(a: string, t: string, post: string)
    requires Blanks(t)
    ensures var s := a + t + ("," + post);
            FindComma(s, |a|) == |a| + |t| < |s| && s[..|a| + |t|] == a + t
  {
    var s := a + t + ("," + post);
    var e := |a| + |t|;
    forall k | |a| <= k < e ensures s[k] != ',' {
      assert s[k] == t[k - |a|] && IsBlank(t[k - |a|]);
    }
    CommaAt(s, |a|, e);
  }

  lemma DropLastText(pre: string, r: Rows, post: string)
    requires r.Row? && r.rest.Row? && r.rest.rest.NoRows? && 1 < Count(r) && Blanks(r.trail)
    ensures var s, items := pre + RowsText(r) + post, RowItems(r, |pre|);
            && |items| == 2 && items[0].ve <= |s| && items[1].ve <= |s|
            && var sep := FindComma(s, items[0].ve);
               sep < |s| && sep <= items[1].ks && s[..sep] + s[items[1].ve..] == pre + RowsText(DropAt(r, 1)) + post
  {
    hide ValText, HeadText, RowText, RowsText, Tail, FindComma, Blanks, RowItems, DropAt;
    LastItems(pre, r);
    LastSeparator(pre, r, post);
    LastValue(pre, r, post);
    LastDropped(pre, r, post);
  }

  lemma LastItems(pre: string, r: Rows)
    requires r.Row? && r.rest.Row? && r.rest.rest.NoRows?
    ensures var items, x := RowItems(r, |pre|), pre + RowText(r) + ",";
            && |items| == 2 && items[0].ve == |pre + HeadText(r) + ValText(r.val)|
            && items[1].ks == |x| + |r.rest.lead| && items[1].ve == |x + HeadText(r.rest)| + |ValText(r.rest.val)|
  {
    hide ValText, HeadText, RowText;
    ItemCount(r, |pre|);
    assert Count(r.rest) == 1;
    assert RowItems(r, |pre|)[1] == FirstFound(r.rest, |pre| + |RowText(r)| + 1);
  }

  // What follows the value of the last row.
  lemma LastValue(pre: string, r: Rows, post: string)
    requires r.Row? && r.rest.Row? && r.rest.rest.NoRows?
    ensures var s, q, x := pre + RowsText(r) + post, r.rest, pre + RowText(r) + ",";
            var ve := |x + HeadText(q)| + |ValText(q.val)|;
            ve <= |s| && s[ve..] == q.trail + post
  {
    hide ValText, HeadText, RowText, RowsText, Tail;
    var q, x := r.rest, pre + RowText(r) + ",";
    FirstRow(pre, r, post);
    FirstRow(x, q, post);
    Cut3(pre + RowsText(r) + post, x + HeadText(q), ValText(q.val), q.trail + Tail(q) + post);
    RowsIs(q);
    assert q.trail + Tail(q) + post == q.trail + post;
  }

  lemma LastSeparator(pre: string, r: Rows, post: string)
    requires r.Row? && r.rest.Row? && Blanks(r.trail)
    ensures var s, a := pre + RowsText(r) + post, pre + HeadText(r) + ValText(r.val);
            |a| <= |s| && FindComma(s, |a|) == |a| + |r.trail| < |s| && s[..|a| + |r.trail|] == a + r.trail
    ensures |pre + RowText(r)| == |pre + HeadText(r) + ValText(r.val)| + |r.trail|
  {
    hide ValText, HeadText, RowText, RowsText, Tail, FindComma, Blanks;
    var a, rest := pre + HeadText(r) + ValText(r.val), RowsText(r.rest);
    FirstRow(pre, r, post);
    RowsIs(r);
    Assoc(a, r.trail, Tail(r) + post);
    Assoc(r.trail, Tail(r), post);
    Assoc(",", rest, post);
    CommaFound(a, r.trail, rest + post);
  }

  lemma LastDropped(pre: string, r: Rows, post: string)
    requires r.Row? && r.rest.Row? && r.rest.rest.NoRows? && 1 < Count(r)
    ensures (pre + HeadText(r) + ValText(r.val) + r.trail) + (r.rest.trail + post) == pre + RowsText(DropAt(r, 1)) + post
  {
    hide ValText, HeadText, RowText, RowsText, Tail;
    var a, t := pre + HeadText(r) + ValText(r.val), r.rest.trail;
    assert Count(r.rest) == 1;
    var r' := DropAt(r, 1);
    FirstRow(pre, r', post);
    SameHeads(r, r');
    Assoc(r.trail, t, post);
    Assoc(a, r.trail, t + post);
    assert r'.trail + Tail(r') + post == r.trail + t + post;
  }

  lemma SameHeads(r: Rows, r': Rows)
    requires r.Row? && r'.Row? && r'.lead == r.lead && r'.key == r.key && r'.gap == r.gap && r'.rest.NoRows?
    ensures Tail(r') == [] && HeadText(r') == HeadText(r)
  {
  }

  // Removing item `k` of several gives the text `out`.
  predicate DroppedText(s: string, items: seq<Found>, k: nat, out: string)
    requires k < |items| && |items| > 1
  {
    if k + 1 < |items| then
      items[k].ks <= |s| && items[k + 1].ks <= |s| && s[..items[k].ks] + s[items[k + 1].ks..] == out
    else
      items[k - 1].ve <= |s| && items[k].ve <= |s|
      && var sep := FindComma(s, items[k - 1].ve);
         sep < |s| && sep <= items[k].ks && s[..sep] + s[items[k].ve..] == out
  }

  /** Removing a row of several is removing its text. */
  lemma {:induction false} DropText(pre: string, r: Rows, post: string, k: nat)
    requires k < Count(r) && Count(r) > 1 && GoodRows(r)
    ensures var s, items := pre + RowsText(r) + post, RowItems(r, |pre|);
            && |items| == Count(r)
            && DroppedText(s, items, k, pre + RowsText(DropAt(r, k)) + post)
    decreases r
  {
    hide ValText, HeadText, RowText, RowsText, KeyToken, GoodVal, Blanks, FindComma, FirstFound;
    ItemCount(r, |pre|);
    if k == 0 {
      DropFirstText(pre, r, post);
    } else if k == 1 && Count(r.rest) == 1 {
      DropLastText(pre, r, post);
    } else {
      DropText(pre + RowText(r) + ",", r.rest, post, k - 1);
      DropLater(pre, r, post, k);
    }
  }

  lemma DropLater(pre: string, r: Rows, post: string, k: nat)
    requires 0 < k < Count(r) && Count(r.rest) > 1
    requires var pre' := pre + RowText(r) + ",";
             |RowItems(r.rest, |pre'|)| == Count(r.rest)
             && DroppedText(pre' + RowsText(r.rest) + post, RowItems(r.rest, |pre'|), k - 1, pre' + RowsText(DropAt(r.rest, k - 1)) + post)
    ensures |RowItems(r, |pre|)| == Count(r)
    ensures DroppedText(pre + RowsText(r) + post, RowItems(r, |pre|), k, pre + RowsText(DropAt(r, k)) + post)
  {
    hide ValText, HeadText, RowText, RowsText, FirstFound, DroppedText;
    var pre' := pre + RowText(r) + ",";
    ItemCount(r, |pre|);
    FirstRow(pre, r, post);
    DropKeepsRow(r.rest, k - 1);
    var r' := r.(rest := DropAt(r.rest, k - 1));
    FirstRow(pre, r', post);
    SameRow(r, r'.rest);
    DroppedShift(pre + RowsText(r) + post, FirstFound(r, |pre|), RowItems(r.rest, |pre'|), k, pre + RowsText(r') + post);
  }

  lemma DroppedShift(s: string, first: Found, items: seq<Found>, k: nat, out: string)
    requires 0 < k <= |items| && |items| > 1 && DroppedText(s, items, k - 1, out)
    ensures DroppedText(s, [first] + items, k, out)
  {
    hide FindComma;
    var all := [first] + items;
    assert all[k] == items[k - 1];
  }

  lemma {:induction false} DropKeepsRow(r: Rows, k: nat)
    requires k < Count(r) && Count(r) > 1
    ensures DropAt(r, k).Row?
  {
  }

  lemma NoCommaAfter(t: string, post: string)
    requires Blanks(t) && post != [] && post[0] == '}'
    ensures DropComma(t + post) == t + post
  {
    assert At(t + post, 0, t);
    SkipBlanksAt(t + post, 0, t);
  }

  /** Removing the only row leaves its blanks. */
  lemma DropOnlyText(pre: string, r: Rows, post: string)
    requires Count(r) == 1 && GoodRows(r) && post != [] && post[0] == '}'
    ensures var s, items := pre + RowsText(r) + post, RowItems(r, |pre|);
            && |items| == 1 && items[0].ks <= |s| && items[0].ve <= |s|
            && s[..items[0].ks] + DropComma(s[items[0].ve..]) == pre + (r.lead + r.trail) + post
  {
    hide ValText, HeadText, RowText, RowsText, DropComma, KeyToken, GoodVal, Blanks, SansLead, Tail;
    var s := pre + RowsText(r) + post;
    ItemCount(r, |pre|);
    FirstRow(pre, r, post);
    RowsIs(r);
    LeadFirst(r);
    Assoc(pre, r.lead, SansLead(r));
    Assoc(pre + r.lead, SansLead(r), post);
    Cut2(s, pre + r.lead, SansLead(r) + post);
    assert r.rest.NoRows?;
    assert r.trail + Tail(r) + post == r.trail + post;
    Cut3(s, pre + HeadText(r), ValText(r.val), r.trail + post);
    NoCommaAfter(r.trail, post);
    Assoc(pre, r.lead, r.trail);
    Assoc(pre + r.lead, r.trail, post);
  }

  // ---- Adding a row ----

  lemma NewRowText(path: Path, raw: string, trail: string)
    ensures RowsText(NewRow(path, raw, trail)) == " " + (Dotted(path) + " = " + raw) + trail
  {
    var r := NewRow(path, raw, trail);
    assert RowsText(r) == RowText(r) + [];
  }

  lemma {:induction false} AddText(pre: string, r: Rows, post: string, path: Path, raw: string)
    requires r.Row?
    ensures var s, items := pre + RowsText(r) + post, RowItems(r, |pre|);
            && |items| == Count(r) > 0 && items[|items| - 1].ve <= |s|
            && s[..items[|items| - 1].ve] + ", " + (Dotted(path) + " = " + raw) + s[items[|items| - 1].ve..]
               == pre + RowsText(AddLast(r, path, raw)) + post
    decreases r
  {
    hide ValText, HeadText, RowText, RowsText, Dotted, Tail;
    var s := pre + RowsText(r) + post;
    ItemCount(r, |pre|);
    FirstRow(pre, r, post);
    if r.rest.NoRows? {
      AddToLast(pre, r, post, path, raw);
    } else {
      var pre' := pre + RowText(r) + ",";
      AddText(pre', r.rest, post, path, raw);
      ItemCount(r.rest, |pre'|);
      var r' := r.(rest := AddLast(r.rest, path, raw));
      FirstRow(pre, r', post);
      SameRow(r, r'.rest);
    }
  }

  lemma AddToLast(pre: string, r: Rows, post: string, path: Path, raw: string)
    requires r.Row? && r.rest.NoRows?
    ensures var s, items, line := pre + RowsText(r) + post, RowItems(r, |pre|), Dotted(path) + " = " + raw;
            && |items| == 1 && items[0].ve <= |s|
            && s[..items[0].ve] + ", " + line + s[items[0].ve..] == pre + RowsText(AddLast(r, path, raw)) + post
  {
    hide ValText, HeadText, RowText, RowsText, Dotted, Tail;
    var s, line := pre + RowsText(r) + post, Dotted(path) + " = " + raw;
    ItemCount(r, |pre|);
    FirstRow(pre, r, post);
    RowsIs(r);
    var a := pre + HeadText(r) + ValText(r.val);
    Cut3(s, pre + HeadText(r), ValText(r.val), r.trail + Tail(r) + post);
    assert r.trail + Tail(r) + post == r.trail + post;
    var r' := AddLast(r, path, raw);
    FirstRow(pre, r', post);
    RowsIs(r');
    SameAddedHead(r, r');
    NewRowText(path, raw, r.trail);
    AddedGroups(a, line, r.trail, post);
    assert r'.trail + Tail(r') + post == "," + (" " + line + r.trail) + post;
  }

  lemma AddedGroups(a: string, line: string, t: string, post: string)
    ensures a + ", " + line + (t + post) == a + ("," + (" " + line + t) + post)
  {
    assert "," + (" " + line + t) == ", " + (line + t);
    Assoc(", ", line + t, post);
    Assoc(line, t, post);
    Assoc(a, ", ", line + (t + post));
    Assoc(a + ", ", line, t + post);
  }

  lemma SameAddedHead(r: Rows, r': Rows)
    requires r.Row? && r'.Row? && r'.lead == r.lead && r'.key == r.key && r'.gap == r.gap && r'.rest.Row?
    ensures HeadText(r') == HeadText(r) && Tail(r') == "," + RowsText(r'.rest)
  {
  }
}
