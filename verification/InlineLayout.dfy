/** The text of a well-formed one-line inline table, token by token, and what reading it gives. */
module InlineLayout {
  import opened Wrappers
  import opened TomlStrings
  import opened TomlText
  import opened InlineTables
  import opened InlineScan

  /** A table as written: rows between commas, each with the blanks around its parts; `blank` is the
      text of a table without rows. */
  datatype Layout = Layout(rows: Rows, blank: string)
  datatype Rows = NoRows | Row(lead: string, key: string, gap: string, val: RVal, trail: string, rest: Rows)
  datatype RVal = RText(raw: string) | RTable(lay: Layout)

  function ValText(v: RVal): string
    decreases v, 0
  {
    match v
    case RText(raw) => raw
    case RTable(lay) => TableText(lay)
  }

  function TableText(l: Layout): string
    decreases l, 2
  {
    "{" + BodyText(l) + "}"
  }

  function BodyText(l: Layout): string
    decreases l, 1
  {
    if l.rows.NoRows? then l.blank else RowsText(l.rows)
  }

  function HeadText(r: Rows): string
    requires r.Row?
  {
    r.lead + r.key + "=" + r.gap
  }

  function RowText(r: Rows): string
    requires r.Row?
    decreases r, 0
  {
    HeadText(r) + ValText(r.val) + r.trail
  }

  function RowsText(r: Rows): string
    decreases r, 1
  {
    match r
    case NoRows => []
    case Row(_, _, _, _, _, rest) => RowText(r) + (if rest.NoRows? then [] else "," + RowsText(rest))
  }

  /** The tree that the text stands for. */
  function TreeOf(r: Rows): Tab {
    match r
    case NoRows => Nil
    case Row(_, key, _, val, _, rest) => Item(KeyPath(key), ValOf(val), TreeOf(rest))
  }

  function ValOf(v: RVal): Val {
    match v
    case RText(raw) => Leaf(raw)
    case RTable(lay) => Sub(TreeOf(lay.rows))
  }

  // ---- Tokens ----

  predicate Blanks(t: string) {
    forall i :: 0 <= i < |t| ==> IsBlank(t[i])
  }

  /** Read from `i` on, the text closes every bracket and quote it opens, and holds no comment. */
  predicate Passes(t: string, i: nat, d: nat, q: Option<char>)
    decreases |t| - i
  {
    if i >= |t| then i == |t| && d == 0 && q.None?
    else if q.Some? then
      if t[i] == '\\' && q.value == '\"' then Passes(t, i + 2, d, q)
      else Passes(t, i + 1, d, if t[i] == q.value then None else q)
    else if IsQuote(t[i]) then Passes(t, i + 1, d, Some(t[i]))
    else if t[i] == '#' then false
    else if t[i] == '[' || t[i] == '{' then Passes(t, i + 1, d + 1, None)
    else if t[i] == ']' || t[i] == '}' then d > 0 && Passes(t, i + 1, d - 1, None)
    else Passes(t, i + 1, d, None)
  }

  /** The text of a key: quotes closed, nothing that ends a key outside them. */
  predicate KeyPasses(t: string, i: nat, q: Option<char>)
    decreases |t| - i
  {
    if i >= |t| then i == |t| && q.None?
    else if q.Some? then
      if t[i] == '\\' && q.value == '\"' then KeyPasses(t, i + 2, q)
      else KeyPasses(t, i + 1, if t[i] == q.value then None else q)
    else if IsQuote(t[i]) then KeyPasses(t, i + 1, Some(t[i]))
    else !EndsKey(t[i]) && KeyPasses(t, i + 1, None)
  }

  predicate KeyToken(k: string) {
    k != [] && !IsSpace(k[0]) && k[0] != ',' && KeyPasses(k, 0, None) && KeyPath(k) != [""]
  }

  predicate WordChar(c: char) {
    c !in ",}#\n{[]" && !IsQuote(c)
  }

  /** A plain value: a string, an array, or a word (number, date, boolean). */
  predicate ValueToken(raw: string) {
    && raw != [] && '\n' !in raw && Passes(raw, 0, 0, None)
    && if IsQuote(raw[0]) then StringEnd(raw, 1, |raw|, raw[0]) == Some(|raw|)
       else if raw[0] == '[' then ScanEnd(raw, 0, 0, None) == Some(|raw|)
       else Tight(raw) && forall i :: 0 <= i < |raw| ==> WordChar(raw[i])
  }

  predicate Good(l: Layout) {
    Blanks(l.blank) && GoodRows(l.rows) && (l.rows.Row? ==> l.blank == "")
  }

  predicate GoodRows(r: Rows) {
    match r
    case NoRows => true
    case Row(lead, key, gap, val, trail, rest) =>
      Blanks(lead) && KeyToken(key) && Blanks(gap) && GoodVal(val) && Blanks(trail) && GoodRows(rest)
  }

  predicate GoodVal(v: RVal) {
    match v
    case RText(raw) => ValueToken(raw)
    case RTable(lay) => Good(lay)
  }

  // ---- Brackets pass by ----

  /** The text `t` stands in `s` at `o`. */
  predicate At(s: string, o: nat, t: string) {
    o + |t| <= |s| && s[o..o + |t|] == t
  }

  lemma AtChar(s: string, o: nat, t: string, i: nat)
    requires At(s, o, t) && i < |t|
    ensures s[o + i] == t[i]
  {
    assert s[o..o + |t|][i] == t[i];
  }

  lemma AtParts(s: string, o: nat, a: string, b: string)
    ensures At(s, o, a + b) <==> At(s, o, a) && At(s, o + |a|, b)
  {
    if At(s, o, a + b) {
      assert s[o..o + |a + b|][..|a|] == a && s[o..o + |a + b|][|a|..] == b;
    }
    if At(s, o, a) && At(s, o + |a|, b) {
      assert s[o..o + |a + b|] == s[o..o + |a|] + s[o + |a|..o + |a| + |b|];
    }
  }

  /** Scanning for the end of an open bracket goes over the text. */
  ghost predicate Neutral(t: string) {
    forall s: string, o: nat, depth: int :: At(s, o, t) && depth >= 1 ==> ScanEnd(s, o, depth, None) == ScanEnd(s, o + |t|, depth, None)
  }

  lemma {:induction false} PassBy(s: string, o: nat, t: string, i: nat, d: nat, q: Option<char>, depth: int)
    requires At(s, o, t) && Passes(t, i, d, q) && depth >= 1
    ensures ScanEnd(s, o + i, depth + d, q) == ScanEnd(s, o + |t|, depth, None)
    decreases |t| - i
  {
    hide At;
    if i < |t| {
      AtChar(s, o, t, i);
      AtEnd(s, o, t);
      if q.Some? {
        if t[i] == '\\' && q.value == '\"' {
          PassBy(s, o, t, i + 2, d, q, depth);
        } else {
          PassBy(s, o, t, i + 1, d, if t[i] == q.value then None else q, depth);
        }
      } else if IsQuote(t[i]) {
        PassBy(s, o, t, i + 1, d, Some(t[i]), depth);
      } else if t[i] == '[' || t[i] == '{' {
        PassBy(s, o, t, i + 1, d + 1, None, depth);
      } else if t[i] == ']' || t[i] == '}' {
        PassBy(s, o, t, i + 1, d - 1, None, depth);
      } else {
        PassBy(s, o, t, i + 1, d, None, depth);
      }
    }
  }

  lemma AtEnd(s: string, o: nat, t: string)
    requires At(s, o, t)
    ensures o + |t| <= |s|
  {
  }

  lemma PassesNeutral(t: string)
    requires Passes(t, 0, 0, None)
    ensures Neutral(t)
  {
    forall s: string, o: nat, depth: int | At(s, o, t) && depth >= 1
      ensures ScanEnd(s, o, depth, None) == ScanEnd(s, o + |t|, depth, None) {
      PassBy(s, o, t, 0, 0, None, depth);
    }
  }

  lemma {:induction false} KeyIsBalanced(t: string, i: nat, q: Option<char>)
    requires KeyPasses(t, i, q)
    ensures Passes(t, i, 0, q)
    decreases |t| - i
  {
    if i < |t| {
      if q.Some? {
        if t[i] == '\\' && q.value == '\"' {
          KeyIsBalanced(t, i + 2, q);
        } else {
          KeyIsBalanced(t, i + 1, if t[i] == q.value then None else q);
        }
      } else {
        KeyIsBalanced(t, i + 1, if IsQuote(t[i]) then Some(t[i]) else None);
      }
    }
  }

  lemma NeutralApart(a: string, b: string)
    requires Neutral(a) && Neutral(b)
    ensures Neutral(a + b)
  {
    hide ScanEnd, At;
    forall s: string, o: nat, depth: int | At(s, o, a + b) && depth >= 1
      ensures ScanEnd(s, o, depth, None) == ScanEnd(s, o + |a + b|, depth, None) {
      AtParts(s, o, a, b);
      assert o + |a| + |b| == o + |a + b|;
    }
  }

  lemma BracesNeutral(t: string)
    requires Neutral(t)
    ensures Neutral("{" + t + "}")
  {
    hide At;
    var u := "{" + t + "}";
    forall s: string, o: nat, depth: int | At(s, o, u) && depth >= 1
      ensures ScanEnd(s, o, depth, None) == ScanEnd(s, o + |u|, depth, None) {
      AtParts(s, o, "{" + t, "}");
      AtParts(s, o, "{", t);
      AtChar(s, o, "{", 0);
      AtChar(s, o + 1 + |t|, "}", 0);
      AtEnd(s, o, u);
      assert ScanEnd(s, o, depth, None) == ScanEnd(s, o + 1, depth + 1, None);
      assert ScanEnd(s, o + 1 + |t|, depth + 1, None) == ScanEnd(s, o + |u|, depth, None);
    }
  }

  lemma {:induction false} BlanksPass(t: string, i: nat)
    requires Blanks(t) && i <= |t|
    ensures Passes(t, i, 0, None)
    decreases |t| - i
  {
    if i < |t| {
      assert IsBlank(t[i]);
      BlanksPass(t, i + 1);
    }
  }

  lemma MarkNeutral(c: string)
    requires c == "," || c == "=" || c == ""
    ensures Neutral(c)
  {
    assert Passes(c, |c|, 0, None);
    PassesNeutral(c);
  }

  lemma {:induction false} RowsNeutral(r: Rows)
    requires GoodRows(r)
    ensures Neutral(RowsText(r))
    decreases r
  {
    hide Neutral, Passes, KeyPasses, StringEnd, ScanEnd, Tight, KeyPath, ValText;
    match r
    case NoRows =>
      MarkNeutral("");
    case Row(lead, key, gap, val, trail, rest) =>
      BlanksPass(lead, 0);
      PassesNeutral(lead);
      KeyIsBalanced(key, 0, None);
      PassesNeutral(key);
      BlanksPass(gap, 0);
      PassesNeutral(gap);
      BlanksPass(trail, 0);
      PassesNeutral(trail);
      MarkNeutral("=");
      MarkNeutral(",");
      MarkNeutral("");
      ValNeutral(val);
      NeutralApart(lead, key);
      NeutralApart(lead + key, "=");
      NeutralApart(lead + key + "=", gap);
      NeutralApart(HeadText(r), ValText(val));
      NeutralApart(HeadText(r) + ValText(val), trail);
      RowsNeutral(rest);
      NeutralApart(",", RowsText(rest));
      NeutralApart(RowText(r), if rest.NoRows? then "" else "," + RowsText(rest));
  }

  lemma {:induction false} ValNeutral(v: RVal)
    requires GoodVal(v)
    ensures Neutral(ValText(v))
    decreases v
  {
    hide Neutral, Passes;
    match v
    case RText(raw) => PassesNeutral(raw);
    case RTable(lay) =>
      BodyNeutral(lay);
      BracesNeutral(BodyText(lay));
  }

  lemma {:induction false} BodyNeutral(l: Layout)
    requires Good(l)
    ensures Neutral(BodyText(l))
    decreases l
  {
    hide Neutral, Passes;
    if l.rows.NoRows? {
      BlanksPass(l.blank, 0);
      PassesNeutral(l.blank);
    } else {
      RowsNeutral(l.rows);
    }
  }

  /** The table ends behind its closing brace, whatever follows. */
  lemma TableEnds(s: string, o: nat, l: Layout)
    requires Good(l) && At(s, o, TableText(l))
    ensures ScanEnd(s, o, 0, None) == Some(o + |TableText(l)|)
    ensures s[o] == '{' && s[o + 1 + |BodyText(l)|] == '}' && At(s, o + 1, BodyText(l))
  {
    hide At, Good, BodyText;
    var t := BodyText(l);
    BodyNeutral(l);
    AtParts(s, o, "{" + t, "}");
    AtParts(s, o, "{", t);
    AtChar(s, o, "{", 0);
    AtChar(s, o + 1 + |t|, "}", 0);
    AtEnd(s, o, TableText(l));
    assert ScanEnd(s, o, 0, None) == ScanEnd(s, o + 1, 1, None);
    assert ScanEnd(s, o + 1, 1, None) == ScanEnd(s, o + 1 + |t|, 1, None);
    assert |TableText(l)| == |t| + 2;
    assert ScanEnd(s, o + 1 + |t|, 1, None) == Some(o + 1 + |t| + 1);
  }
}
