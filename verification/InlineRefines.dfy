/** The text operation on inline tables refines the operation on trees: the text it writes is a
    well-formed table that reads as the tree, and what stands outside the braces stays. */
module InlineRefines {
  import opened Wrappers
  import opened TomlStrings
  import opened TomlText
  import opened InlineTables
  import opened InlineScan
  import opened InlineText
  import opened InlineLayout
  import opened InlineRead
  import opened InlineEdits

  // ---- Items and trees ----

  function KeyAt(r: Rows, k: nat): Path
    requires k < Count(r)
  {
    if k == 0 then KeyPath(r.key) else KeyAt(r.rest, k - 1)
  }

  /** No row before `k` has its key. */
  ghost predicate First(r: Rows, k: nat)
    requires k < Count(r)
  {
    forall j :: 0 <= j < k ==> KeyAt(r, j) != KeyAt(r, k)
  }

  lemma FirstLater(r: Rows, k: nat)
    requires 0 < k < Count(r) && First(r, k)
    ensures First(r.rest, k - 1) && KeyPath(r.key) != KeyAt(r, k) && KeyAt(r, k) == KeyAt(r.rest, k - 1)
  {
    hide KeyPath;
    assert KeyAt(r, 0) != KeyAt(r, k);
    forall j | 0 <= j < k - 1 ensures KeyAt(r.rest, j) != KeyAt(r.rest, k - 1) {
      assert KeyAt(r, j + 1) != KeyAt(r, k);
    }
  }

  /** A row changed or dropped is an item changed or dropped. */
  lemma {:induction false} RowTree(r: Rows, k: nat, v: RVal)
    requires k < Count(r) && First(r, k)
    ensures HasKey(TreeOf(r), KeyAt(r, k)) && ValueAt(TreeOf(r), KeyAt(r, k)) == ValOf(ValAt(r, k))
    ensures TreeOf(SetVal(r, k, v)) == Replace(TreeOf(r), KeyAt(r, k), ValOf(v))
    ensures TreeOf(DropAt(r, k)) == Drop(TreeOf(r), KeyAt(r, k))
  {
    hide KeyPath, First;
    if k > 0 {
      FirstLater(r, k);
      RowTree(r.rest, k - 1, v);
      if k == 1 && Count(r.rest) == 1 {
        LastTree(r);
      }
    }
  }

  lemma LastTree(r: Rows)
    requires r.Row? && Count(r.rest) == 1
    ensures TreeOf(r.rest) == Item(KeyPath(r.rest.key), ValOf(r.rest.val), Nil)
    ensures TreeOf(DropAt(r, 1)) == Item(KeyPath(r.key), ValOf(r.val), Nil)
  {
    hide KeyPath;
    assert r.rest.rest.NoRows?;
  }

  /** Searching the items is searching the tree. */
  lemma {:induction false} FindsKey(r: Rows, o: nat, p: Path)
    ensures var k := FindKey(RowItems(r, o), p);
            && k <= Count(r) && (k < Count(r) <==> HasKey(TreeOf(r), p))
            && (k < Count(r) ==> KeyAt(r, k) == p && First(r, k))
  {
    hide KeyPath, RowText, FindKey, RowItems, First;
    if r.Row? {
      KeyStep(r, o, p);
      FindsKey(r.rest, o + |RowText(r)| + 1, p);
      var k := FindKey(RowItems(r, o), p);
      if k < Count(r) {
        FirstShift(r, k);
      }
    } else {
      assert RowItems(r, o) == [] by { ItemCount(r, o); }
    }
  }

  lemma KeyStep(r: Rows, o: nat, p: Path)
    requires r.Row?
    ensures FindKey(RowItems(r, o), p)
         == if KeyPath(r.key) == p then 0 else 1 + FindKey(RowItems(r.rest, o + |RowText(r)| + 1), p)
  {
    hide KeyPath, ValText, RowText, HeadText;
    assert RowItems(r, o)[1..] == RowItems(r.rest, o + |RowText(r)| + 1);
  }

  lemma FirstShift(r: Rows, k: nat)
    requires k < Count(r)
    ensures k == 0 ==> First(r, k)
    ensures k > 0 && First(r.rest, k - 1) && KeyPath(r.key) != KeyAt(r, k) ==> First(r, k)
  {
    hide KeyPath;
    if k > 0 && First(r.rest, k - 1) && KeyPath(r.key) != KeyAt(r, k) {
      forall j | 0 <= j < k ensures KeyAt(r, j) != KeyAt(r, k) {
        assert j > 0 ==> KeyAt(r, j) == KeyAt(r.rest, j - 1);
      }
    }
  }

  lemma {:induction false} FindsHost(r: Rows, o: nat, p: Path)
    ensures var k := FindHost(RowItems(r, o), p);
            && k <= Count(r) && (k < Count(r) <==> HasHost(TreeOf(r), p))
            && (k < Count(r) ==> HostKey(TreeOf(r), p) == KeyAt(r, k) && NoHostBefore(r, k, p))
  {
    hide KeyPath, RowText, NoHostBefore, FindHost, RowItems;
    if r.Row? {
      HostStep(r, o, p);
      FindsHost(r.rest, o + |RowText(r)| + 1, p);
      var k := FindHost(RowItems(r, o), p);
      if k < Count(r) {
        NoHostShift(r, k, p);
      }
    } else {
      assert RowItems(r, o) == [] by { ItemCount(r, o); }
    }
  }

  lemma HostStep(r: Rows, o: nat, p: Path)
    requires r.Row?
    ensures FindHost(RowItems(r, o), p)
         == if Under(KeyPath(r.key), p) then 0 else 1 + FindHost(RowItems(r.rest, o + |RowText(r)| + 1), p)
  {
    hide KeyPath, ValText, RowText, HeadText;
    assert RowItems(r, o)[1..] == RowItems(r.rest, o + |RowText(r)| + 1);
  }

  ghost predicate NoHostBefore(r: Rows, k: nat, p: Path)
    requires k < Count(r)
  {
    Under(KeyAt(r, k), p) && forall j :: 0 <= j < k ==> !Under(KeyAt(r, j), p)
  }

  lemma NoHostShift(r: Rows, k: nat, p: Path)
    requires k < Count(r)
    ensures k == 0 ==> (NoHostBefore(r, k, p) <==> Under(KeyPath(r.key), p))
    ensures k > 0 && NoHostBefore(r.rest, k - 1, p) && !Under(KeyPath(r.key), p) ==> NoHostBefore(r, k, p)
  {
    hide KeyPath;
    if k > 0 && NoHostBefore(r.rest, k - 1, p) && !Under(KeyPath(r.key), p) {
      forall j | 0 <= j < k ensures !Under(KeyAt(r, j), p) {
        assert j > 0 ==> KeyAt(r, j) == KeyAt(r.rest, j - 1);
      }
    }
  }

  lemma HostIsFirst(r: Rows, k: nat, p: Path)
    requires k < Count(r) && NoHostBefore(r, k, p)
    ensures First(r, k)
  {
    hide KeyAt;
  }

  lemma {:induction false} FindsBelow(r: Rows, o: nat, p: Path)
    ensures AnyBelow(RowItems(r, o), p) <==> HasBelow(TreeOf(r), p)
  {
    hide KeyPath, ValText;
    if r.Row? {
      var items := RowItems(r, o);
      assert items[1..] == RowItems(r.rest, o + |RowText(r)| + 1);
      FindsBelow(r.rest, o + |RowText(r)| + 1, p);
    }
  }

  lemma {:induction false} ItemAt(r: Rows, o: nat, k: nat)
    requires k < Count(r)
    ensures |RowItems(r, o)| == Count(r) && RowItems(r, o)[k].key == KeyAt(r, k)
    ensures RowItems(r, o)[k].ve == RowItems(r, o)[k].vs + |ValText(ValAt(r, k))|
  {
    hide KeyPath, ValText, HeadText;
    ItemCount(r, o);
    if k > 0 {
      ItemAt(r.rest, o + |RowText(r)| + 1, k - 1);
    }
  }

  lemma {:induction false} AddTree(r: Rows, path: Path, raw: string)
    requires r.Row?
    ensures TreeOf(AddLast(r, path, raw)) == Append(TreeOf(r), KeyPath(Dotted(path) + " "), Leaf(raw))
  {
    hide KeyPath, Dotted;
    if r.rest.Row? {
      AddTree(r.rest, path, raw);
    } else {
      assert TreeOf(NewRow(path, raw, r.trail)) == Item(KeyPath(Dotted(path) + " "), Leaf(raw), Nil);
    }
  }

  // ---- Edits keep rows well-formed ----

  lemma {:induction false} SetValGood(r: Rows, k: nat, v: RVal)
    requires GoodRows(r) && k < Count(r) && GoodVal(v)
    ensures GoodRows(SetVal(r, k, v)) && Count(SetVal(r, k, v)) == Count(r)
  {
    hide KeyToken, GoodVal, Blanks;
    if k > 0 {
      SetValGood(r.rest, k - 1, v);
    }
  }

  lemma {:induction false} ValAtGood(r: Rows, k: nat)
    requires GoodRows(r) && k < Count(r)
    ensures GoodVal(ValAt(r, k)) && ValAt(r, k) < r
  {
    hide KeyToken, GoodVal, Blanks;
    if k > 0 {
      ValAtGood(r.rest, k - 1);
    }
  }

  lemma BlanksApart(a: string, b: string)
    requires Blanks(a) && Blanks(b)
    ensures Blanks(a + b)
  {
  }

  lemma {:induction false} DropGood(r: Rows, k: nat)
    requires GoodRows(r) && k < Count(r)
    ensures GoodRows(DropAt(r, k))
  {
    hide KeyToken, GoodVal, Blanks;
    if k == 1 && Count(r.rest) == 1 {
      BlanksApart(r.trail, r.rest.trail);
    } else if k > 0 {
      DropGood(r.rest, k - 1);
    }
  }

  lemma DropRowGood(l: Layout, k: nat)
    requires Good(l) && k < Count(l.rows)
    ensures Good(DropRow(l, k))
  {
    hide KeyToken, GoodVal, Blanks;
    DropGood(l.rows, k);
    if Count(l.rows) == 1 {
      OnlyRow(l.rows);
      BlanksApart(l.rows.lead, l.rows.trail);
    }
  }

  lemma OnlyRow(r: Rows)
    requires Count(r) == 1
    ensures DropAt(r, 0) == NoRows
  {
    assert r.rest.NoRows?;
  }

  lemma OneBlankGood()
    ensures Blanks(" ") && Blanks("")
  {
  }

  lemma {:induction false} AddGood(r: Rows, path: Path, raw: string)
    requires GoodRows(r) && KeyToken(Dotted(path) + " ") && ValueToken(raw)
    ensures GoodRows(if r.NoRows? then NewRow(path, raw, " ") else AddLast(r, path, raw))
  {
    hide KeyToken, ValueToken, Blanks, Dotted;
    OneBlankGood();
    if r.Row? && r.rest.Row? {
      AddGood(r.rest, path, raw);
    } else {
      assert GoodVal(RText(raw));
      assert GoodRows(NewRow(path, raw, if r.Row? then r.trail else " "));
    }
  }

  // ---- Keys written ----

  /** A key made of plain names. */
  predicate PlainPath(p: Path) {
    p != [] && forall i :: 0 <= i < |p| ==> Name(p[i])
  }

  lemma {:induction false} NameSegments(s: string, i: nat, n: string, cur: string, rest: string)
    requires s[..] == s && i + |n| <= |s| && s[i..] == n + rest && forall k :: 0 <= k < |n| ==> NameChar(n[k])
    ensures Segments(s, i, cur, None) == Segments(s, i + |n|, cur + n, None)
    decreases |n|
  {
    if n == [] {
      assert cur + n == cur;
    } else {
      assert s[i] == s[i..][0] == n[0] && NameChar(n[0]);
      BareNotSpace(n[0]);
      assert s[i + 1..] == s[i..][1..] == n[1..] + rest;
      NameSegments(s, i + 1, n[1..], cur + [n[0]], rest);
      assert cur + [n[0]] + n[1..] == cur + n;
      assert Segments(s, i, cur, None) == Segments(s, i + 1, cur + [n[0]], None);
    }
  }

  lemma {:induction false} DottedSegments(s: string, i: nat, p: Path, end: string)
    requires PlainPath(p) && i <= |s| && s[i..] == Dotted(p) + end && (end == "" || end == " ")
    ensures Segments(s, i, [], None) == p[..|p| - 1] + [p[|p| - 1] + end]
    decreases |p|
  {
    hide Name;
    var n := p[0];
    NameIs(p);
    if |p| == 1 {
      LengthFits(s, i, n, end);
      NameSegments(s, i, n, [], end);
      assert [] + n == n;
      assert s[i + |n|..] == end;
      if end == " " {
        assert s[i + |n|] == end[0];
        assert Segments(s, i + |n|, n, None) == Segments(s, i + |n| + 1, n + [' '], None);
      } else {
        assert n + end == n;
      }
      assert p[..0] + [p[0] + end] == [n + end];
    } else {
      var rest := "." + Dotted(p[1..]) + end;
      assert Dotted(p) + end == n + rest;
      LengthFits(s, i, n, rest);
      NameSegments(s, i, n, [], rest);
      assert [] + n == n;
      assert s[i + |n|..] == rest && s[i + |n|] == '.';
      assert s[i + |n| + 1..] == s[i + |n|..][1..] == Dotted(p[1..]) + end;
      assert PlainPath(p[1..]) by { RestPlain(p); }
      DottedSegments(s, i + |n| + 1, p[1..], end);
      assert p == [n] + p[1..];
    }
  }

  lemma LengthFits(s: string, i: nat, n: string, rest: string)
    requires i <= |s| && s[i..] == n + rest
    ensures i + |n| <= |s| && s[i + |n|..] == rest
  {
    assert s[i..][|n|..] == rest;
  }

  lemma NameIs(p: Path)
    requires PlainPath(p)
    ensures forall k :: 0 <= k < |p[0]| ==> NameChar(p[0][k])
    ensures p[0] != []
  {
    assert Name(p[0]);
  }

  lemma RestPlain(p: Path)
    requires PlainPath(p) && |p| > 1
    ensures PlainPath(p[1..])
  {
  }

  lemma NameSegment(n: string)
    requires Name(n)
    ensures PlainSegment(n) == n && PlainSegment(n + " ") == n
  {
    hide Trim, IsSpace;
    assert NameChar(n[0]) && NameChar(n[|n| - 1]);
    BareNotSpace(n[0]);
    BareNotSpace(n[|n| - 1]);
    TrimTight(n);
  }

  lemma {:induction false} SegmentsPlain(p: Path, end: string)
    requires PlainPath(p) && (end == "" || end == " ")
    ensures PlainSegments(p[..|p| - 1] + [p[|p| - 1] + end]) == p
    decreases |p|
  {
    hide Name, PlainSegment;
    assert Name(p[0]);
    NameSegment(p[0]);
    if |p| == 1 {
      assert p[..0] + [p[0] + end] == [p[0] + end];
      assert p[0] + "" == p[0];
      assert [p[0] + end][1..] == [] && p == [p[0]];
    } else {
      RestPlain(p);
      SegmentsPlain(p[1..], end);
      var q := p[1..];
      var all := p[..|p| - 1] + [p[|p| - 1] + end];
      assert all[0] == p[0] && all[1..] == q[..|q| - 1] + [q[|q| - 1] + end];
      assert p == [p[0]] + q;
    }
  }

  /** A name between the brackets of a header is read as its path too. */
  lemma DottedIsPath(p: Path)
    requires PlainPath(p)
    ensures KeyPath(Dotted(p)) == p
  {
    hide Segments, PlainSegments, Dotted;
    assert Dotted(p)[0..] == Dotted(p) + "";
    DottedSegments(Dotted(p), 0, p, "");
    SegmentsPlain(p, "");
  }

  lemma {:induction false} DottedPasses(t: string, i: nat)
    requires i <= |t| && forall k :: i <= k < |t| ==> BareChar(t[k]) || t[k] == ' '
    ensures KeyPasses(t, i, None)
    decreases |t| - i
  {
    if i < |t| {
      if BareChar(t[i]) {
        BareNotSpace(t[i]);
      }
      DottedPasses(t, i + 1);
    }
  }

  lemma {:induction false} DottedChars(p: Path)
    requires PlainPath(p)
    ensures Dotted(p) != [] && forall k :: 0 <= k < |Dotted(p)| ==> BareChar(Dotted(p)[k])
    decreases |p|
  {
    NameIs(p);
    if |p| > 1 {
      RestPlain(p);
      DottedChars(p[1..]);
    }
  }

  /** A key written by the generator is read as its path. */
  lemma DottedReads(p: Path)
    requires PlainPath(p)
    ensures KeyPath(Dotted(p) + " ") == p && KeyToken(Dotted(p) + " ")
  {
    hide Segments, PlainSegments, IsSpace, KeyPasses, BareChar, Dotted;
    var s := Dotted(p) + " ";
    assert s[0..] == s;
    DottedSegments(s, 0, p, " ");
    SegmentsPlain(p, " ");
    DottedChars(p);
    forall k | 0 <= k < |s| ensures BareChar(s[k]) || s[k] == ' ' {
      if k < |Dotted(p)| {
        assert s[k] == Dotted(p)[k];
      }
    }
    DottedPasses(s, 0);
    BareNotSpace(s[0]);
    NotComma(s[0]);
    NameIs(p);
  }

  lemma NotComma(c: char)
    requires BareChar(c)
    ensures c != ','
  {
  }

  // ---- Where a path leads, on rows ----

  function RowWalk(r: Rows, p: Path): Spot<RVal>
    decreases r
  {
    match r
    case NoRows => Free
    case Row(_, key, _, val, _, rest) =>
      var k := KeyPath(key);
      if k == p then Leads(val)
      else if Under(k, p) then (if val.RText? then Stuck else RowWalk(val.lay.rows, p[|k|..]))
      else if RowWalk(rest, p).Free? && Under(p, k) then Above
      else RowWalk(rest, p)
  }

  function SpotOf(x: Spot<RVal>): Spot<Val> {
    match x
    case Free => Free
    case Stuck => Stuck
    case Above => Above
    case Leads(v) => Leads(ValOf(v))
  }

  /** Walking the rows is walking the tree. */
  lemma {:induction false} RowWalkTree(r: Rows, p: Path)
    ensures Walk(TreeOf(r), p) == SpotOf(RowWalk(r, p))
    decreases r
  {
    hide KeyPath;
    if r.Row? {
      var k := KeyPath(r.key);
      RowWalkTree(r.rest, p);
      if Under(k, p) && r.val.RTable? {
        RowWalkTree(r.val.lay.rows, p[|k|..]);
      }
    }
  }

  /** A path at or below the key of a row leads to it, whatever value stands there. */
  lemma {:induction false} WalkAt(r: Rows, k: nat, v: RVal, q: Path)
    requires Wf(TreeOf(r)) && k < Count(r) && KeyAt(r, k) <= q
    ensures var key := KeyAt(r, k);
            RowWalk(SetVal(r, k, v), q) == if key == q then Leads(v) else if v.RText? then Stuck else RowWalk(v.lay.rows, q[|key|..])
    decreases r
  {
    hide KeyPath;
    if k > 0 {
      WalkAt(r.rest, k - 1, v, q);
      RowsApart(r, k, q);
    }
  }

  // A path at or below a row is at, below or above no row in front of it.
  lemma RowsApart(r: Rows, k: nat, q: Path)
    requires Wf(TreeOf(r)) && 0 < k < Count(r) && KeyAt(r, k) <= q
    ensures !Comparable(KeyPath(r.key), q)
  {
    hide KeyPath;
    HasKeyAt(r.rest, k - 1);
    NoClashWith(KeyPath(r.key), TreeOf(r.rest), KeyAt(r, k));
    PrefixesMeet(KeyPath(r.key), KeyAt(r, k), q);
  }

  lemma {:induction false} HasKeyAt(r: Rows, k: nat)
    requires k < Count(r)
    ensures HasKey(TreeOf(r), KeyAt(r, k))
  {
    hide KeyPath;
    if k > 0 {
      HasKeyAt(r.rest, k - 1);
    }
  }

  lemma {:induction false} SameVal(r: Rows, k: nat)
    requires k < Count(r)
    ensures SetVal(r, k, ValAt(r, k)) == r
  {
    if k > 0 {
      SameVal(r.rest, k - 1);
    }
  }

  /** A path apart from the key of a row does not see its value change. */
  lemma {:induction false} WalkOffSet(r: Rows, k: nat, v: RVal, q: Path)
    requires k < Count(r) && !Comparable(q, KeyAt(r, k))
    ensures RowWalk(SetVal(r, k, v), q) == RowWalk(r, q)
  {
    hide KeyPath;
    if k > 0 {
      WalkOffSet(r.rest, k - 1, v, q);
    }
  }

  lemma {:induction false} WalkOffDrop(r: Rows, k: nat, q: Path)
    requires k < Count(r) && !Comparable(q, KeyAt(r, k))
    ensures RowWalk(DropAt(r, k), q) == RowWalk(r, q)
  {
    hide KeyPath;
    if k > 0 {
      WalkOffDrop(r.rest, k - 1, q);
      if k == 1 && Count(r.rest) == 1 {
        LastWalk(r, q);
      }
    } else if r.rest.Row? {
      LeadWalk(r.rest, r.lead, q);
    }
  }

  lemma LeadWalk(r: Rows, lead: string, q: Path)
    requires r.Row?
    ensures RowWalk(r.(lead := lead), q) == RowWalk(r, q)
  {
  }

  lemma LastWalk(r: Rows, q: Path)
    requires r.Row? && Count(r.rest) == 1 && !Comparable(q, KeyPath(r.rest.key))
    ensures RowWalk(DropAt(r, 1), q) == RowWalk(r, q)
  {
    hide KeyPath;
    assert r.rest.rest.NoRows?;
  }

  /** Once a row is dropped, a path below its key is free. */
  lemma {:induction false} WalkGone(r: Rows, k: nat, q: Path)
    requires Wf(TreeOf(r)) && k < Count(r) && Under(KeyAt(r, k), q)
    ensures RowWalk(DropAt(r, k), q).Free?
    decreases r
  {
    hide KeyPath, Wf;
    WfRows(r);
    if k == 0 {
      if r.rest.Row? {
        LeadWalk(r.rest, r.lead, q);
        FreeBehind(r.rest, KeyPath(r.key), q);
      }
    } else {
      RowsApart(r, k, q);
      WalkGone(r.rest, k - 1, q);
      if k == 1 && Count(r.rest) == 1 {
        assert r.rest.rest.NoRows?;
      }
    }
  }

  lemma WfRows(r: Rows)
    requires Wf(TreeOf(r)) && r.Row?
    ensures Wf(TreeOf(r.rest)) && NoClash(KeyPath(r.key), TreeOf(r.rest))
  {
    hide KeyPath;
  }

  // Rows apart from a key hold nothing at, above or below a path under it.
  lemma {:induction false} FreeBehind(r: Rows, key: Path, q: Path)
    requires NoClash(key, TreeOf(r)) && Under(key, q)
    ensures RowWalk(r, q).Free?
  {
    hide KeyPath;
    if r.Row? {
      FreeBehind(r.rest, key, q);
      PrefixesMeet(KeyPath(r.key), key, q);
    }
  }

  lemma {:induction false} WalkOffAdd(r: Rows, path: Path, raw: string, q: Path)
    requires KeyPath(Dotted(path) + " ") == path && !Comparable(q, path)
    ensures RowWalk(if r.NoRows? then NewRow(path, raw, " ") else AddLast(r, path, raw), q) == RowWalk(r, q)
  {
    hide KeyPath, Dotted;
    if r.Row? && r.rest.Row? {
      WalkOffAdd(r.rest, path, raw, q);
    } else {
      NewRowWalk(path, raw, if r.Row? then r.trail else " ", q);
    }
  }

  lemma NewRowWalk(path: Path, raw: string, trail: string, q: Path)
    requires KeyPath(Dotted(path) + " ") == path && !Comparable(q, path)
    ensures RowWalk(NewRow(path, raw, trail), q).Free?
  {
    hide KeyPath, Dotted;
  }
}
