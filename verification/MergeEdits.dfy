/** A merged key that the file already holds, as a setting or inside an inline table. */
module MergeEdits {
  import opened Wrappers
  import opened InlineTables
  import opened TomlStrings
  import opened InlineText
  import opened InlineLayout
  import opened InlineRefines
  import opened InlineSetLaws
  import opened InlineValues
  import opened TomlLines
  import opened MergeScan

  /** drop, put: settings removed or replaced. inline: texts of the inline tables changed so far.
      refused: keys that cannot be written where the file wants them. */
  datatype Edits = Edits(drop: set<nat>, put: map<nat, Line>, inline: map<nat, string>, refused: seq<Path>)

  /** The value asked for a key: None to remove it. */
  function Asked(want: map<Path, string>, k: Path): Option<string> {
    if k in want then Some(want[k]) else None
  }

  predicate Wanted(want: map<Path, string>, p: Path, v: string) {
    p in want && v == Unquote(want[p])
  }

  /** The keys merged: dotted keys of plain names, none above another; no key of a tunnel in a file
      where a sub-table stands apart from its tunnel. */
  ghost predicate Mergeable(lines: seq<Line>, touched: set<Path>) {
    && (forall k :: k in touched ==> PlainPath(k) && Apt(lines, k))
    && forall k, t :: k in touched && t in touched ==> !Under(k, t)
  }

  ghost predicate NoneAbove(touched: set<Path>) {
    forall k, t :: k in touched && t in touched ==> !Under(k, t)
  }

  /** The generated values are plain ones: strings, numbers, dates, booleans, arrays. */
  ghost predicate PlainValues(want: map<Path, string>, touched: set<Path>) {
    forall k :: k in want && k in touched ==> ValueToken(want[k])
  }

  // ---- Where a key leads in the file ----

  /** What the key leads to, from a setting at or above it. */
  ghost function EntrySpot(lines: seq<Line>, i: nat, k: Path): Spot<string>
    requires IsSetting(lines, i) && FullKey(lines, i) <= k
  {
    RawSpot(FullKey(lines, i), lines[i].raw, k)
  }

  /** A value stands above the key. */
  ghost predicate BlockedIn(lines: seq<Line>, k: Path) {
    exists q, v :: Under(q, k) && Bound(lines, q, v)
  }

  /** The key stands above others inside an inline table, without being a key of it. */
  ghost predicate AboveIn(lines: seq<Line>, k: Path) {
    exists i: nat :: IsSetting(lines, i) && Under(FullKey(lines, i), k) && EntrySpot(lines, i, k).Above?
  }

  /** The key holds an inline table of that text. */
  ghost predicate TableIn(lines: seq<Line>, k: Path, text: string) {
    Opens(text) && exists i: nat :: IsSetting(lines, i) && FullKey(lines, i) <= k && EntrySpot(lines, i, k) == Leads(text)
  }

  ghost predicate RefusedAt(lines: seq<Line>, i: nat, k: Path)
    requires IsSetting(lines, i) && Under(FullKey(lines, i), k)
  {
    EntrySpot(lines, i, k).Stuck? || EntrySpot(lines, i, k).Above?
  }

  ghost predicate RefusedIn(lines: seq<Line>, k: Path) {
    exists i: nat :: IsSetting(lines, i) && Under(FullKey(lines, i), k) && RefusedAt(lines, i, k)
  }

  // ---- One value along the way ----

  ghost predicate OptSays(f: Path, raw: Option<string>, p: Path, v: string) {
    raw.Some? && RawSays(f, raw.value, p, v)
  }

  /** The merge acts on the key: it can be written, and its text is not already the one asked. */
  ghost predicate Acts(f: Path, raw: string, want: map<Path, string>, k: Path)
    requires f <= k
  {
    var spot := RawSpot(f, raw, k);
    !spot.Stuck? && !spot.Above? && !Kept(spot, Asked(want, k))
  }

  /** Some key done, at or above the path, was acted on. */
  ghost predicate Hit(f: Path, raw: string, want: map<Path, string>, done: set<Path>, p: Path) {
    exists k :: k in done && f <= k && k <= p && Acts(f, raw, want, k)
  }

  /** What the setting at `f` must say once the keys are done: the values asked for the keys acted on,
      nothing below them, and what it said elsewhere. */
  ghost predicate MustSay(f: Path, raw0: string, want: map<Path, string>, done: set<Path>, p: Path, v: string) {
    if Hit(f, raw0, want, done, p) then p in done && Wanted(want, p, v) else RawSays(f, raw0, p, v)
  }

  ghost predicate Updated(f: Path, raw0: string, raw: Option<string>, want: map<Path, string>, done: set<Path>) {
    forall p, v :: OptSays(f, raw, p, v) <==> MustSay(f, raw0, want, done, p, v)
  }

  /** Every path apart from the keys done leads where it led, raw values included. */
  ghost predicate SameSpots(f: Path, raw0: string, raw: Option<string>, done: set<Path>) {
    raw.Some? ==>
      ValueOk(raw.value) && forall q :: f <= q && Aside(q, done) ==> RawSpot(f, raw.value, q) == RawSpot(f, raw0, q)
  }

  /** The path is at, above or below none of the keys. */
  predicate Aside(q: Path, keys: set<Path>) {
    forall k :: k in keys ==> !Comparable(q, k)
  }

  /** The merge has nothing to do for the key: it holds the value asked, or leads nowhere, or cannot be
      written. */
  ghost predicate NoChange(f: Path, raw: string, want: map<Path, string>, k: Path)
    requires f <= k
  {
    var spot := RawSpot(f, raw, k);
    spot.Stuck? || spot.Above? || Still(spot, Asked(want, k))
  }

  /** A setting for whose keys there is nothing to do keeps its text. */
  ghost predicate LeftAlone(f: Path, raw0: string, raw: Option<string>, want: map<Path, string>, done: set<Path>) {
    (forall k :: k in done && f <= k ==> NoChange(f, raw0, want, k)) ==> raw == Some(raw0)
  }

  lemma SaysBelow(f: Path, raw: string, p: Path, v: string)
    ensures RawSays(f, raw, p, v) ==> f <= p
  {
    hide Has, IsInline;
  }

  // A key that the setting does not lead to changes nothing.
  lemma Unaffected(f: Path, raw0: string, raw: Option<string>, want: map<Path, string>, done: set<Path>, k: Path)
    requires Updated(f, raw0, raw, want, done) && SameSpots(f, raw0, raw, done) && !(f <= k)
    ensures Updated(f, raw0, raw, want, done + {k}) && SameSpots(f, raw0, raw, done + {k})
  {
    hide OptSays, RawSays, Acts, RawSpot, ValueOk;
    forall p, v ensures MustSay(f, raw0, want, done + {k}, p, v) <==> MustSay(f, raw0, want, done, p, v) {
      assert Hit(f, raw0, want, done + {k}, p) <==> Hit(f, raw0, want, done, p);
      SaysBelow(f, raw0, p, v);
      assert p == k ==> !Hit(f, raw0, want, done + {k}, p);
    }
  }

  lemma StillAlone(f: Path, raw0: string, raw: Option<string>, want: map<Path, string>, done: set<Path>, k: Path)
    requires LeftAlone(f, raw0, raw, want, done)
    requires f <= k ==> !NoChange(f, raw0, want, k)
    ensures LeftAlone(f, raw0, raw, want, done + {k})
  {
    hide NoChange;
    assert k in done + {k};
    if forall t :: t in done + {k} && f <= t ==> NoChange(f, raw0, want, t) {
      assert forall t :: t in done ==> t in done + {k};
    }
  }

  // No merged key is above or below another one.
  lemma OnlyItself(touched: set<Path>, done: set<Path>, k: Path)
    requires k in touched && done <= touched && NoneAbove(touched)
    ensures forall t :: t in done && Comparable(t, k) ==> t == k
  {
    forall t | t in done && Comparable(t, k) ensures t == k {
      assert t in touched && (t == k || Under(t, k) || Under(k, t));
    }
  }

  // Nothing to do: the key is stuck, above others, or its table is kept.
  lemma NotActed(f: Path, raw0: string, raw: Option<string>, want: map<Path, string>, touched: set<Path>, done: set<Path>, k: Path)
    requires Updated(f, raw0, raw, want, done) && SameSpots(f, raw0, raw, done)
    requires f <= k && !Acts(f, raw0, want, k) && k in touched && done <= touched && NoneAbove(touched)
    ensures Updated(f, raw0, raw, want, done + {k}) && SameSpots(f, raw0, raw, done + {k})
  {
    hide OptSays, RawSays, Acts, RawSpot, ValueOk;
    OnlyItself(touched, done, k);
    forall p, v ensures MustSay(f, raw0, want, done + {k}, p, v) <==> MustSay(f, raw0, want, done, p, v) {
      assert Hit(f, raw0, want, done + {k}, p) <==> Hit(f, raw0, want, done, p);
      assert p == k ==> !Hit(f, raw0, want, done, p);
    }
  }

  // What must be said after one more key, acted on.
  lemma ActedSays(f: Path, raw0: string, want: map<Path, string>, touched: set<Path>, done: set<Path>, k: Path, p: Path, v: string)
    requires f <= k && Acts(f, raw0, want, k) && k in touched && done <= touched && NoneAbove(touched)
    ensures MustSay(f, raw0, want, done + {k}, p, v)
       <==> if p == k then Wanted(want, k, v) else !(k <= p) && MustSay(f, raw0, want, done, p, v)
  {
    hide RawSays, Acts;
    if k <= p {
      assert Hit(f, raw0, want, done + {k}, p);
      assert p != k && p in done ==> Under(k, p);
    } else {
      assert Hit(f, raw0, want, done + {k}, p) <==> Hit(f, raw0, want, done, p);
    }
  }

  // ---- The key of the setting itself ----

  lemma FoundUpdated(k: Path, raw0: string, want: map<Path, string>, touched: set<Path>, done: set<Path>, raw: Option<string>)
    requires Updated(k, raw0, Some(raw0), want, done) && ValueOk(raw0)
    requires k in touched && k !in done && done <= touched && NoneAbove(touched) && PlainValues(want, touched)
    requires raw == if k !in want then None else if Unquote(raw0) == Unquote(want[k]) then Some(raw0) else Some(want[k])
    ensures Updated(k, raw0, raw, want, done + {k}) && SameSpots(k, raw0, raw, done + {k})
  {
    hide RawSays, ValueOk, ValueToken, Unquote, IsInline;
    if k in want {
      TokenIsPlain(want[k]);
      OpensUnquoted(raw0);
      PlainOk(want[k]);
    }
    if !Acts(k, raw0, want, k) {
      NotActed(k, raw0, Some(raw0), want, touched, done, k) by { StartSpots(k, raw0, done); }
    } else {
      forall p, v ensures OptSays(k, raw, p, v) <==> MustSay(k, raw0, want, done + {k}, p, v) {
        ActedSays(k, raw0, want, touched, done, k, p, v);
        SaysBelow(k, raw0, p, v);
        FoundSays(k, raw0, want, raw, p, v);
      }
    }
    assert forall q :: k <= q ==> !Aside(q, done + {k});
  }

  lemma StartSpots(k: Path, raw0: string, done: set<Path>)
    requires ValueOk(raw0)
    ensures SameSpots(k, raw0, Some(raw0), done)
  {
  }

  lemma FoundAlone(k: Path, raw0: string, raw: Option<string>, want: map<Path, string>, done: set<Path>)
    requires raw == if k !in want then None else if Unquote(raw0) == Unquote(want[k]) then Some(raw0) else Some(want[k])
    ensures LeftAlone(k, raw0, raw, want, done + {k})
  {
    hide Unquote;
    assert k in done + {k};
  }

  lemma HostAlone(f: Path, raw0: string, raw: string, raw': string, want: map<Path, string>, done: set<Path>, k: Path)
    requires LeftAlone(f, raw0, Some(raw), want, done) && Under(f, k) && (NoChange(f, raw0, want, k) ==> raw' == raw)
    ensures LeftAlone(f, raw0, Some(raw'), want, done + {k})
  {
    hide NoChange;
    assert k in done + {k} && forall t :: t in done ==> t in done + {k};
  }

  // The text of a table reads as itself.
  lemma OpensUnquoted(raw: string)
    ensures Opens(raw) ==> Unquote(raw) == raw
  {
    if Opens(raw) && |raw| >= 3 {
      assert raw[0..3][0] == raw[0];
    }
  }

  lemma PlainOk(raw: string)
    requires ValueToken(raw)
    ensures ValueOk(raw)
  {
    hide ValueToken, IsInline;
    TokenIsPlain(raw);
  }

  // What the new value of the setting says: the value asked at its key, nothing below.
  lemma FoundSays(k: Path, raw0: string, want: map<Path, string>, raw: Option<string>, p: Path, v: string)
    requires k in want ==> ValueToken(want[k])
    requires raw == if k !in want then None else if Unquote(raw0) == Unquote(want[k]) then Some(raw0) else Some(want[k])
    requires Acts(k, raw0, want, k) && ValueOk(raw0)
    ensures OptSays(k, raw, p, v) <==> p == k && Wanted(want, k, v)
  {
    hide ValueToken, Unquote, IsInline, Has;
    if k in want {
      TokenIsPlain(want[k]);
      OpensUnquoted(raw0);
      if IsInline(raw0) {
        InlineOpens(raw0);
      }
    }
  }

  // ---- A key inside an inline table ----

  lemma HostUpdated(f: Path, raw0: string, raw: string, want: map<Path, string>, touched: set<Path>, done: set<Path>, k: Path,
                    next: Option<string>)
    requires Updated(f, raw0, Some(raw), want, done) && SameSpots(f, raw0, Some(raw), done)
    requires Under(f, k) && k in touched && k !in done && done <= touched && NoneAbove(touched) && PlainValues(want, touched)
    requires PlainPath(k) && IsInline(raw) && next == InlineSet(raw, 0, k[|f|..], Asked(want, k))
    ensures next.None? <==> RawSpot(f, raw0, k).Stuck? || RawSpot(f, raw0, k).Above?
    ensures var raw' := if next.Some? then next.value else raw;
            && IsInline(raw') && Updated(f, raw0, Some(raw'), want, done + {k}) && SameSpots(f, raw0, Some(raw'), done + {k})
            && (NoChange(f, raw0, want, k) ==> raw' == raw)
  {
    hide Still, RawSays, ValueToken, Unquote, InlineSet, Changed, RowWalk, Wf, PlainPath, IsInline, TabOf, RowsOf, OptSays, Updated, SameSpots, Acts;
    var rel := k[|f|..];
    InlineOpens(raw);
    CurOk(f, raw0, raw, touched, done, k);
    SuffixPlain(k, |f|);
    RawSetLaw(raw, rel, Asked(want, k));
    ActsBySpot(f, raw0, want, k);
    var spot := RawSpot(f, raw0, k);
    if spot.Stuck? || spot.Above? || Kept(spot, Asked(want, k)) {
      NotActed(f, raw0, Some(raw), want, touched, done, k);
    } else {
      HostSpots(f, raw0, raw, next.value, done, k);
      HostSays(f, raw0, raw, next.value, want, touched, done, k);
    }
  }

  lemma ActsBySpot(f: Path, raw0: string, want: map<Path, string>, k: Path)
    requires f <= k
    ensures var spot := RawSpot(f, raw0, k);
            Acts(f, raw0, want, k) <==> !spot.Stuck? && !spot.Above? && !Kept(spot, Asked(want, k))
  {
    hide RawSpot, Kept;
  }

  lemma CurOk(f: Path, raw0: string, raw: string, touched: set<Path>, done: set<Path>, k: Path)
    requires SameSpots(f, raw0, Some(raw), done) && IsInline(raw) && Opens(raw) && Under(f, k) && k in touched && k !in done
    requires done <= touched && NoneAbove(touched)
    ensures Wf(TabOf(raw)) && RawSpot(f, raw0, k) == TextSpot(RowWalk(RowsOf(raw), k[|f|..]))
  {
    hide IsInline, Wf, RowWalk, TabOf, RowsOf, TextSpot;
    NextAside(touched, done, k);
    assert RawSpot(f, raw, k) == RawSpot(f, raw0, k);
  }

  // A key still to come is apart from the keys done.
  lemma NextAside(touched: set<Path>, done: set<Path>, k: Path)
    requires k in touched && k !in done && done <= touched && NoneAbove(touched)
    ensures Aside(k, done)
  {
    OnlyItself(touched, done, k);
  }

  lemma HostSpots(f: Path, raw0: string, raw: string, raw': string, done: set<Path>, k: Path)
    requires SameSpots(f, raw0, Some(raw), done) && IsInline(raw) && IsInline(raw') && Wf(TabOf(raw'))
    requires Under(f, k)
    requires forall q :: !Comparable(q, k[|f|..]) ==> RowWalk(RowsOf(raw'), q) == RowWalk(RowsOf(raw), q)
    ensures SameSpots(f, raw0, Some(raw'), done + {k})
  {
    hide IsInline, Wf, RowWalk, TabOf, RowsOf, TextSpot;
    forall q | f <= q && Aside(q, done + {k}) ensures RawSpot(f, raw', q) == RawSpot(f, raw0, q) {
      assert k in done + {k} && !Comparable(q, k);
      assert q != f && Under(f, q);
      SplitPath(f, q, k);
      assert Aside(q, done) && RawSpot(f, raw, q) == RawSpot(f, raw0, q);
    }
  }

  lemma HostSays(f: Path, raw0: string, raw: string, raw': string, want: map<Path, string>, touched: set<Path>, done: set<Path>, k: Path)
    requires Updated(f, raw0, Some(raw), want, done) && IsInline(raw) && IsInline(raw')
    requires Under(f, k) && k in touched && done <= touched && NoneAbove(touched) && Acts(f, raw0, want, k)
    requires Changed(TabOf(raw), TabOf(raw'), k[|f|..], Asked(want, k))
    ensures Updated(f, raw0, Some(raw'), want, done + {k})
  {
    hide IsInline, Wf, TabOf, Unquote, Has, Acts, MustSay;
    forall p, v ensures OptSays(f, Some(raw'), p, v) <==> MustSay(f, raw0, want, done + {k}, p, v) {
      ActedSays(f, raw0, want, touched, done, k, p, v);
      SplitPath(f, p, k);
      assert OptSays(f, Some(raw), p, v) <==> MustSay(f, raw0, want, done, p, v);
      if f <= p {
        ChangedSays(TabOf(raw), TabOf(raw'), k[|f|..], Asked(want, k), p[|f|..], v);
      }
    }
  }

  lemma ChangedSays(t: Tab, t': Tab, k: Path, raw: Option<string>, q: Path, v: string)
    requires Changed(t, t', k, raw)
    ensures Has(t', q, v) <==> if q == k then raw.Some? && v == Unquote(raw.value) else !(k <= q) && Has(t, q, v)
  {
    hide Has, Wf, Unquote;
    assert Has(t', q, v) <==> ChangedHas(t, k, raw, q, v);
  }

  // A plain value lets nothing be written below it.
  lemma PlainStuck(f: Path, raw0: string, raw: string, touched: set<Path>, done: set<Path>, k: Path)
    requires SameSpots(f, raw0, Some(raw), done) && !Opens(raw) && Under(f, k) && k in touched && k !in done
    requires done <= touched && NoneAbove(touched)
    ensures RawSpot(f, raw0, k).Stuck?
  {
    hide IsInline, RowWalk, ValueOk;
    if IsInline(raw) {
      InlineOpens(raw);
    }
    NextAside(touched, done, k);
    assert RawSpot(f, raw, k) == RawSpot(f, raw0, k);
  }

  // ---- Every setting along the way ----

  ghost predicate EditsOk(lines: seq<Line>, ed: Edits) {
    && (forall j :: j in ed.drop ==> IsSetting(lines, j) && j !in ed.inline)
    && (forall j :: j in ed.put ==>
          IsSetting(lines, j) && ed.put[j].Entry? && ed.put[j].key == lines[j].key && ed.put[j].eol == lines[j].eol && j !in ed.inline)
    && forall j :: j in ed.inline ==> IsSetting(lines, j) && IsInline(ed.inline[j])
  }

  function CurRaw(lines: seq<Line>, ed: Edits, i: nat): Option<string>
    requires IsSetting(lines, i) && (i in ed.put ==> ed.put[i].Entry?)
  {
    if i in ed.drop then None
    else if i in ed.put then Some(ed.put[i].raw)
    else if i in ed.inline then Some(ed.inline[i])
    else Some(lines[i].raw)
  }

  ghost predicate SettingDone(lines: seq<Line>, want: map<Path, string>, touched: set<Path>, done: set<Path>, ed: Edits, i: nat)
    requires IsSetting(lines, i) && (i in ed.put ==> ed.put[i].Entry?)
  {
    var f := FullKey(lines, i);
    && Updated(f, lines[i].raw, CurRaw(lines, ed, i), want, done)
    && SameSpots(f, lines[i].raw, CurRaw(lines, ed, i), done)
    && LeftAlone(f, lines[i].raw, CurRaw(lines, ed, i), want, done)
    && (f !in done ==> i !in ed.drop && i !in ed.put)
    && ((i in ed.drop || i in ed.put || i in ed.inline) ==> LeadsTo(f, done))
  }

  /** After the keys done: every setting updated, and refused exactly the wanted keys that cannot be
      written. */
  ghost predicate EditsDone(lines: seq<Line>, want: map<Path, string>, touched: set<Path>, done: set<Path>, ed: Edits) {
    && EditsOk(lines, ed)
    && (forall i: nat :: IsSetting(lines, i) ==> SettingDone(lines, want, touched, done, ed, i))
    && forall k :: k in ed.refused <==> k in done && k in want && RefusedIn(lines, k)
  }

  ghost predicate Merging(lines: seq<Line>, want: map<Path, string>, touched: set<Path>, done: set<Path>, ed: Edits) {
    && WellFormed(lines) && Mergeable(lines, touched) && PlainValues(want, touched) && done <= touched
    && EditsDone(lines, want, touched, done, ed)
  }

  // A key that leads to one setting leaves the others as they were.
  lemma OthersDone(lines: seq<Line>, want: map<Path, string>, touched: set<Path>, done: set<Path>,
                   ed: Edits, ed': Edits, k: Path, j: nat)
    requires IsSetting(lines, j) && !(FullKey(lines, j) <= k)
    requires EditsOk(lines, ed) && EditsOk(lines, ed') && SettingDone(lines, want, touched, done, ed, j)
    requires (j in ed.drop <==> j in ed'.drop) && (j in ed.put <==> j in ed'.put)
    requires j in ed.put ==> ed.put[j] == ed'.put[j]
    requires (j in ed.inline <==> j in ed'.inline) && (j in ed.inline ==> ed.inline[j] == ed'.inline[j])
    ensures SettingDone(lines, want, touched, done + {k}, ed', j)
  {
    hide Updated, SameSpots, LeftAlone, NoChange, PlaceAt;
    var f := FullKey(lines, j);
    Unaffected(f, lines[j].raw, CurRaw(lines, ed, j), want, done, k);
    StillAlone(f, lines[j].raw, CurRaw(lines, ed, j), want, done, k);
  }

  // The settings that the key does not lead to, all of them.
  lemma AllOthersDone(lines: seq<Line>, want: map<Path, string>, touched: set<Path>, done: set<Path>,
                      ed: Edits, ed': Edits, i: nat, k: Path)
    requires WellFormed(lines) && EditsDone(lines, want, touched, done, ed) && EditsOk(lines, ed')
    requires IsSetting(lines, i) && FullKey(lines, i) <= k
    requires forall j: nat :: j != i ==> (j in ed.drop <==> j in ed'.drop) && (j in ed.put <==> j in ed'.put) && (j in ed.inline <==> j in ed'.inline)
    requires forall j: nat :: j != i && j in ed.put && j in ed'.put ==> ed.put[j] == ed'.put[j]
    requires forall j: nat :: j != i && j in ed.inline && j in ed'.inline ==> ed.inline[j] == ed'.inline[j]
    ensures forall j: nat :: IsSetting(lines, j) && j != i ==> SettingDone(lines, want, touched, done + {k}, ed', j)
  {
    hide PlaceAt, WellFormed, Updated, SameSpots, LeftAlone, RefusedIn, IsInline;
    forall j: nat | IsSetting(lines, j) && j != i ensures SettingDone(lines, want, touched, done + {k}, ed', j) {
      assert SettingDone(lines, want, touched, done, ed, j);
      SettingsApart(lines, i, j, k);
      OthersDone(lines, want, touched, done, ed, ed', k, j);
    }
  }

  lemma SettingsApart(lines: seq<Line>, i: nat, j: nat, k: Path)
    requires WellFormed(lines) && IsSetting(lines, i) && IsSetting(lines, j) && i != j && FullKey(lines, i) <= k
    ensures !(FullKey(lines, j) <= k)
  {
    hide PlaceAt, ValueOk;
    PrefixesMeet(FullKey(lines, j), FullKey(lines, i), k);
  }

  // ---- A key found ----

  method EditFound(lines: seq<Line>, want: map<Path, string>, ghost touched: set<Path>, ghost done: set<Path>,
                   ed: Edits, i: nat, k: Path) returns (ed': Edits)
    requires Merging(lines, want, touched, done, ed) && k in touched && k !in done
    requires IsSetting(lines, i) && FullKey(lines, i) == k
    ensures EditsDone(lines, want, touched, done + {k}, ed')
  {
    hide Merging, PlaceAt, EditsDone;
    if k !in want {
      ed' := ed.(drop := ed.drop + {i});
    } else if Unquote(lines[i].raw) == Unquote(want[k]) {
      ed' := ed;
    } else {
      ed' := ed.(put := ed.put[i := Entry(lines[i].key, want[k], lines[i].eol)]);
    }
    FoundStep(lines, want, touched, done, ed, ed', i, k);
  }

  predicate FoundEdit(lines: seq<Line>, want: map<Path, string>, ed: Edits, ed': Edits, i: nat, k: Path)
    requires IsSetting(lines, i)
  {
    if k !in want then ed' == ed.(drop := ed.drop + {i})
    else if Unquote(lines[i].raw) == Unquote(want[k]) then ed' == ed
    else ed' == ed.(put := ed.put[i := Entry(lines[i].key, want[k], lines[i].eol)])
  }

  lemma FoundStep(lines: seq<Line>, want: map<Path, string>, touched: set<Path>, done: set<Path>,
                  ed: Edits, ed': Edits, i: nat, k: Path)
    requires Merging(lines, want, touched, done, ed) && k in touched && k !in done
    requires IsSetting(lines, i) && FullKey(lines, i) == k && FoundEdit(lines, want, ed, ed', i, k)
    ensures EditsDone(lines, want, touched, done + {k}, ed')
  {
    hide PlaceAt, Updated, SameSpots, LeftAlone, RefusedIn, WellFormed, Unquote, IsInline, PlainPath, ValueToken, LeadsTo;
    assert SettingDone(lines, want, touched, done, ed, i);
    FoundNotRefused(lines, i, k);
    FoundUntouched(lines, touched, done, ed, i, k);
    FoundOk(lines, want, ed, ed', i, k);
    FoundSettingDone(lines, want, touched, done, ed, ed', i, k);
    hide EditsOk, SettingDone, FoundEdit;
    AllOthersDone(lines, want, touched, done, ed, ed', i, k) by { FoundElsewhere(lines, want, ed, ed', i, k); }
  }

  lemma FoundElsewhere(lines: seq<Line>, want: map<Path, string>, ed: Edits, ed': Edits, i: nat, k: Path)
    requires IsSetting(lines, i) && FoundEdit(lines, want, ed, ed', i, k)
    ensures ed'.refused == ed.refused
    ensures forall j: nat :: j != i ==> (j in ed.drop <==> j in ed'.drop) && (j in ed.put <==> j in ed'.put) && (j in ed.inline <==> j in ed'.inline)
    ensures forall j: nat :: j != i && j in ed.put && j in ed'.put ==> ed.put[j] == ed'.put[j]
    ensures forall j: nat :: j != i && j in ed.inline && j in ed'.inline ==> ed.inline[j] == ed'.inline[j]
  {
    hide PlaceAt, Unquote;
  }

  // No key done leads inside the setting of a key still to come.
  lemma FoundUntouched(lines: seq<Line>, touched: set<Path>, done: set<Path>, ed: Edits, i: nat, k: Path)
    requires k in touched && k !in done && done <= touched && NoneAbove(touched)
    requires IsSetting(lines, i) && FullKey(lines, i) == k
    requires (i in ed.drop || i in ed.put || i in ed.inline) ==> LeadsTo(k, done)
    ensures i !in ed.drop && i !in ed.put && i !in ed.inline
  {
    hide PlaceAt;
    OnlyItself(touched, done, k);
  }

  lemma FoundOk(lines: seq<Line>, want: map<Path, string>, ed: Edits, ed': Edits, i: nat, k: Path)
    requires EditsOk(lines, ed) && IsSetting(lines, i) && i !in ed.inline && FoundEdit(lines, want, ed, ed', i, k)
    ensures EditsOk(lines, ed')
  {
    hide PlaceAt, Unquote, IsInline;
  }

  lemma FoundSettingDone(lines: seq<Line>, want: map<Path, string>, touched: set<Path>, done: set<Path>,
                         ed: Edits, ed': Edits, i: nat, k: Path)
    requires WellFormed(lines) && PlainValues(want, touched)
    requires EditsOk(lines, ed) && EditsOk(lines, ed') && NoneAbove(touched) && done <= touched && k in touched && k !in done
    requires IsSetting(lines, i) && FullKey(lines, i) == k && i !in ed.drop && i !in ed.put && i !in ed.inline
    requires SettingDone(lines, want, touched, done, ed, i) && FoundEdit(lines, want, ed, ed', i, k)
    ensures SettingDone(lines, want, touched, done + {k}, ed', i)
  {
    hide PlaceAt, Updated, SameSpots, LeftAlone, Unquote, ValueOk, IsInline;
    FoundUpdated(k, lines[i].raw, want, touched, done, CurRaw(lines, ed', i));
    FoundAlone(k, lines[i].raw, CurRaw(lines, ed', i), want, done);
    assert k in done + {k} && k <= k;
  }

  // ---- A key inside an inline table ----

  /** A key inside the text of an inline table; refused if it is wanted and cannot be written. */
  method EditHost(lines: seq<Line>, want: map<Path, string>, ghost touched: set<Path>, ghost done: set<Path>,
                  ed: Edits, i: nat, k: Path) returns (ed': Edits)
    requires Merging(lines, want, touched, done, ed) && k in touched && k !in done
    requires IsSetting(lines, i) && Under(FullKey(lines, i), k)
    ensures EditsDone(lines, want, touched, done + {k}, ed')
  {
    hide Merging, PlaceAt, EditsDone, InlineSet;
    var f := FullKey(lines, i);
    var cur := if i in ed.inline then ed.inline[i] else lines[i].raw;
    var next := if Opens(cur) then InlineSet(cur, 0, k[|f|..], Asked(want, k)) else None;
    if next.Some? {
      ed' := ed.(inline := ed.inline[i := next.value]);
    } else if k in want {
      ed' := ed.(refused := ed.refused + [k]);
    } else {
      ed' := ed;
    }
    HostStep(lines, want, touched, done, ed, ed', i, k, next);
  }

  function HostText(lines: seq<Line>, ed: Edits, i: nat): string
    requires IsSetting(lines, i)
  {
    if i in ed.inline then ed.inline[i] else lines[i].raw
  }

  predicate HostEdit(lines: seq<Line>, want: map<Path, string>, ed: Edits, ed': Edits, i: nat, k: Path, next: Option<string>)
    requires IsSetting(lines, i) && Under(FullKey(lines, i), k)
  {
    var cur := HostText(lines, ed, i);
    && next == (if Opens(cur) then InlineSet(cur, 0, k[|FullKey(lines, i)|..], Asked(want, k)) else None)
    && ed' == if next.Some? then ed.(inline := ed.inline[i := next.value])
              else if k in want then ed.(refused := ed.refused + [k]) else ed
  }

  lemma HostStep(lines: seq<Line>, want: map<Path, string>, touched: set<Path>, done: set<Path>,
                 ed: Edits, ed': Edits, i: nat, k: Path, next: Option<string>)
    requires Merging(lines, want, touched, done, ed) && k in touched && k !in done
    requires IsSetting(lines, i) && Under(FullKey(lines, i), k) && HostEdit(lines, want, ed, ed', i, k, next)
    ensures EditsDone(lines, want, touched, done + {k}, ed')
  {
    hide PlaceAt, Updated, SameSpots, LeftAlone, RefusedIn, RefusedAt, WellFormed, InlineSet, IsInline, PlainPath, ValueToken, EditsOk, LeadsTo;
    var f := FullKey(lines, i);
    assert SettingDone(lines, want, touched, done, ed, i);
    HostUntouched(lines, touched, done, ed, i, k);
    HostSettingDone(lines, want, touched, done, ed, ed', i, k, next);
    HostRefused(lines, i, k);
    hide SettingDone, HostEdit;
    AllOthersDone(lines, want, touched, done, ed, ed', i, k) by { HostElsewhere(lines, want, ed, ed', i, k, next); }
    HostElsewhere(lines, want, ed, ed', i, k, next);
  }

  lemma HostElsewhere(lines: seq<Line>, want: map<Path, string>, ed: Edits, ed': Edits, i: nat, k: Path, next: Option<string>)
    requires IsSetting(lines, i) && Under(FullKey(lines, i), k) && HostEdit(lines, want, ed, ed', i, k, next)
    ensures ed'.refused == if next.None? && k in want then ed.refused + [k] else ed.refused
    ensures forall j: nat :: j != i ==> (j in ed.drop <==> j in ed'.drop) && (j in ed.put <==> j in ed'.put) && (j in ed.inline <==> j in ed'.inline)
    ensures forall j: nat :: j != i && j in ed.put && j in ed'.put ==> ed.put[j] == ed'.put[j]
    ensures forall j: nat :: j != i && j in ed.inline && j in ed'.inline ==> ed.inline[j] == ed'.inline[j]
  {
    hide PlaceAt, InlineSet;
  }

  // The key of a setting that leads to another key merged is not merged itself.
  lemma HostUntouched(lines: seq<Line>, touched: set<Path>, done: set<Path>, ed: Edits, i: nat, k: Path)
    requires k in touched && done <= touched && NoneAbove(touched)
    requires IsSetting(lines, i) && Under(FullKey(lines, i), k)
    requires FullKey(lines, i) !in done ==> i !in ed.drop && i !in ed.put
    ensures i !in ed.drop && i !in ed.put
  {
    hide PlaceAt;
    assert FullKey(lines, i) !in touched;
  }

  lemma HostSettingDone(lines: seq<Line>, want: map<Path, string>, touched: set<Path>, done: set<Path>,
                        ed: Edits, ed': Edits, i: nat, k: Path, next: Option<string>)
    requires WellFormed(lines) && PlainValues(want, touched) && EditsOk(lines, ed)
    requires NoneAbove(touched) && done <= touched && k in touched && k !in done && PlainPath(k)
    requires IsSetting(lines, i) && Under(FullKey(lines, i), k) && i !in ed.drop && i !in ed.put
    requires SettingDone(lines, want, touched, done, ed, i) && HostEdit(lines, want, ed, ed', i, k, next)
    ensures EditsOk(lines, ed') && SettingDone(lines, want, touched, done + {k}, ed', i)
    ensures next.None? <==> RefusedAt(lines, i, k)
  {
    hide PlaceAt, Updated, SameSpots, LeftAlone, NoChange, Unquote, InlineSet, RawSpot, PlainValues;
    var f, raw0, cur := FullKey(lines, i), lines[i].raw, HostText(lines, ed, i);
    assert CurRaw(lines, ed, i) == Some(cur);
    if Opens(cur) {
      assert IsInline(cur) by { CurInline(f, raw0, cur, touched, done); }
      HostUpdated(f, raw0, cur, want, touched, done, k, next);
    } else {
      PlainStuck(f, raw0, cur, touched, done, k);
      ActsBySpot(f, raw0, want, k);
      NotActed(f, raw0, Some(cur), want, touched, done, k);
    }
    HostAlone(f, raw0, cur, if next.Some? then next.value else cur, want, done, k);
    assert k in done + {k} && f <= k;
  }

  lemma CurInline(f: Path, raw0: string, raw: string, touched: set<Path>, done: set<Path>)
    requires SameSpots(f, raw0, Some(raw), done) && Opens(raw)
    ensures IsInline(raw)
  {
    hide IsInline, RawSpot;
  }

  // ---- Keys that cannot be written ----

  // Only the setting that leads to the key can stand above it.
  lemma OnlyHost(lines: seq<Line>, i: nat, k: Path, q: Path, v: string)
    requires WellFormed(lines) && IsSetting(lines, i) && FullKey(lines, i) <= k && Under(q, k)
    ensures Bound(lines, q, v) <==> RawSays(FullKey(lines, i), lines[i].raw, q, v)
  {
    hide RawSays, PlaceAt, ValueOk;
    BoundBySetting(lines, q, v);
    if j: nat :| IsSetting(lines, j) && RawSays(FullKey(lines, j), lines[j].raw, q, v) {
      SaysBelow(FullKey(lines, j), lines[j].raw, q, v);
      PrefixesMeet(FullKey(lines, j), FullKey(lines, i), k);
    }
  }

  lemma HostRefused(lines: seq<Line>, i: nat, k: Path)
    requires WellFormed(lines) && IsSetting(lines, i) && Under(FullKey(lines, i), k)
    ensures RefusedIn(lines, k) <==> RefusedAt(lines, i, k)
  {
    hide PlaceAt, WellFormed, EntrySpot;
    if RefusedIn(lines, k) {
      var j: nat :| IsSetting(lines, j) && Under(FullKey(lines, j), k) && RefusedAt(lines, j, k);
      if j != i {
        SettingsApart(lines, i, j, k);
      }
    }
  }

  lemma FoundNotRefused(lines: seq<Line>, i: nat, k: Path)
    requires WellFormed(lines) && IsSetting(lines, i) && FullKey(lines, i) == k
    ensures !RefusedIn(lines, k)
  {
    hide PlaceAt, WellFormed, EntrySpot;
    forall j: nat | IsSetting(lines, j) ensures !Under(FullKey(lines, j), k) {
      if j != i {
        SettingsApart(lines, i, j, k);
      }
    }
  }

  lemma NewNotRefused(lines: seq<Line>, k: Path)
    requires forall i: nat :: IsSetting(lines, i) ==> !(FullKey(lines, i) <= k)
    ensures !RefusedIn(lines, k)
  {
    hide PlaceAt, EntrySpot;
  }

  /** A key cannot be written exactly when a plain value stands above it, or when it stands above keys
      of an inline table without being one. */
  lemma RefusedMeans(lines: seq<Line>, k: Path)
    requires WellFormed(lines)
    ensures RefusedIn(lines, k) <==> BlockedIn(lines, k) || AboveIn(lines, k)
  {
    hide PlaceAt, WellFormed, EntrySpot, Bound;
    if i: nat :| IsSetting(lines, i) && Under(FullKey(lines, i), k) {
      HostRefused(lines, i, k);
      StuckBlocks(lines, i, k);
      if AboveIn(lines, k) {
        var j: nat :| IsSetting(lines, j) && Under(FullKey(lines, j), k) && EntrySpot(lines, j, k).Above?;
        if j != i {
          SettingsApart(lines, i, j, k);
        }
      }
    } else {
      forall q, v | Under(q, k) ensures !Bound(lines, q, v) {
        NothingBlocks(lines, k, q, v);
      }
    }
  }

  lemma NothingBlocks(lines: seq<Line>, k: Path, q: Path, v: string)
    requires Under(q, k) && forall i: nat :: IsSetting(lines, i) ==> !Under(FullKey(lines, i), k)
    ensures !Bound(lines, q, v)
  {
    hide PlaceAt, RawSays;
    BoundBySetting(lines, q, v);
    forall j: nat | IsSetting(lines, j) ensures !RawSays(FullKey(lines, j), lines[j].raw, q, v) {
      SaysBelow(FullKey(lines, j), lines[j].raw, q, v);
    }
  }

  lemma StuckBlocks(lines: seq<Line>, i: nat, k: Path)
    requires WellFormed(lines) && IsSetting(lines, i) && Under(FullKey(lines, i), k)
    ensures EntrySpot(lines, i, k).Stuck? <==> BlockedIn(lines, k)
  {
    hide PlaceAt, Bound, Wf, Has, RowWalk, Walk, Blocked, IsInline, TabOf, RowsOf;
    var f, raw := FullKey(lines, i), lines[i].raw;
    var rel := k[|f|..];
    if IsInline(raw) {
      InlineOpens(raw);
      assert Wf(TabOf(raw));
      RowWalkTree(RowsOf(raw), rel) by { TabIsTree(raw); }
      TabIsTree(raw);
      StuckIsBlocked(TabOf(raw), rel);
      InlineBlocks(lines, i, k);
    } else {
      OnlyHost(lines, i, k, f, Unquote(raw));
      assert Under(f, k) && Bound(lines, f, Unquote(raw));
    }
  }

  lemma TabIsTree(raw: string)
    requires IsInline(raw)
    ensures TabOf(raw) == TreeOf(RowsOf(raw))
  {
    hide RowsOf;
  }

  lemma InlineBlocks(lines: seq<Line>, i: nat, k: Path)
    requires WellFormed(lines) && IsSetting(lines, i) && Under(FullKey(lines, i), k) && IsInline(lines[i].raw)
    requires Wf(TabOf(lines[i].raw))
    ensures Blocked(TabOf(lines[i].raw), k[|FullKey(lines, i)|..]) <==> BlockedIn(lines, k)
  {
    hide PlaceAt, Bound, Wf, Has, IsInline, TabOf, WellFormed;
    var f, t := FullKey(lines, i), TabOf(lines[i].raw);
    var rel := k[|f|..];
    forall q, v | Under(q, k) ensures Bound(lines, q, v) <==> f <= q && Has(t, q[|f|..], v) {
      OnlyHost(lines, i, k, q, v);
    }
    if Blocked(t, rel) {
      var q, v :| Under(q, rel) && Has(t, q, v);
      assert (f + q)[|f|..] == q;
      SplitPath(f, f + q, k);
      assert Bound(lines, f + q, v);
    }
    if BlockedIn(lines, k) {
      var q, v :| Under(q, k) && Bound(lines, q, v);
      SplitPath(f, q, k);
      assert Has(t, q[|f|..], v);
    }
  }

  // ---- Writing the inline tables back ----

  /** The inline tables changed go back to their entries; an emptied one leaves with its entry. */
  method WriteBack(lines: seq<Line>, ed: Edits) returns (ed': Edits)
    requires EditsOk(lines, ed)
    ensures EditsOk(lines, ed') && ed'.inline == map[] && ed'.refused == ed.refused
    ensures forall i: nat :: IsSetting(lines, i) ==>
              CurRaw(lines, ed', i) == if i in ed.inline && InlineEmpty(ed.inline[i], 0) then None else CurRaw(lines, ed, i)
    ensures forall i: nat, p, v :: IsSetting(lines, i) ==>
              (OptSays(FullKey(lines, i), CurRaw(lines, ed', i), p, v) <==> OptSays(FullKey(lines, i), CurRaw(lines, ed, i), p, v))
    ensures forall i: nat :: i in ed'.drop || i in ed'.put ==> i in ed.drop || i in ed.put || i in ed.inline
  {
    hide PlaceAt, OptSays, IsInline, InlineEmpty;
    var drop: set<nat>, put: map<nat, Line> := ed.drop, ed.put;
    for i := 0 to |lines|
      invariant forall j :: j in drop ==> IsSetting(lines, j)
      invariant forall j :: j in put ==> IsSetting(lines, j) && put[j].Entry? && put[j].key == lines[j].key && put[j].eol == lines[j].eol
      invariant forall j: nat :: j in drop <==> j in ed.drop || (j < i && j in ed.inline && InlineEmpty(ed.inline[j], 0))
      invariant forall j: nat :: j in put <==>
                  j in ed.put || (j < i && j in ed.inline && !InlineEmpty(ed.inline[j], 0) && ed.inline[j] != lines[j].raw)
      invariant forall j: nat :: j in put ==> if j in ed.put then put[j] == ed.put[j] else put[j].raw == ed.inline[j]
    {
      if i in ed.inline {
        if InlineEmpty(ed.inline[i], 0) {
          drop := drop + {i};
        } else if ed.inline[i] != lines[i].raw {
          put := put[i := Entry(lines[i].key, ed.inline[i], lines[i].eol)];
        }
      }
    }
    ed' := Edits(drop, put, map[], ed.refused);
    forall i: nat, p, v | IsSetting(lines, i)
      ensures OptSays(FullKey(lines, i), CurRaw(lines, ed', i), p, v) <==> OptSays(FullKey(lines, i), CurRaw(lines, ed, i), p, v)
    {
      WrittenBack(lines, ed, ed', i, p, v);
    }
  }

  lemma WrittenBack(lines: seq<Line>, ed: Edits, ed': Edits, i: nat, p: Path, v: string)
    requires EditsOk(lines, ed) && IsSetting(lines, i) && ed'.inline == map[]
    requires i in ed'.put ==> ed'.put[i].Entry?
    requires i in ed'.drop <==> i in ed.drop || (i in ed.inline && InlineEmpty(ed.inline[i], 0))
    requires i in ed'.put <==> i in ed.put || (i in ed.inline && !InlineEmpty(ed.inline[i], 0) && ed.inline[i] != lines[i].raw)
    requires i in ed'.put ==> if i in ed.put then ed'.put[i] == ed.put[i] else ed'.put[i].raw == ed.inline[i]
    ensures OptSays(FullKey(lines, i), CurRaw(lines, ed', i), p, v) <==> OptSays(FullKey(lines, i), CurRaw(lines, ed, i), p, v)
  {
    hide PlaceAt, OptSays, IsInline, InlineEmpty;
    var f := FullKey(lines, i);
    if i in ed.inline && InlineEmpty(ed.inline[i], 0) {
      EmptySays(f, ed.inline[i], p, v);
    }
  }

  lemma EmptySays(f: Path, raw: string, p: Path, v: string)
    requires IsInline(raw) && InlineEmpty(raw, 0)
    ensures !OptSays(f, Some(raw), p, v) && !OptSays(f, None, p, v)
  {
    hide IsInline, TabOf, InlineEmpty;
    RawEmpty(raw);
  }
}
