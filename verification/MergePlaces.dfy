/** Where the root keys and the new tables of a merge go: in front of the first table, and in front
    of the first tunnel. */
module MergePlaces {
  import opened InlineTables
  import opened TomlLines
  import opened MergePlan
  import opened MergeCounts
  import opened MergeScan
  import opened MergeAdds

  /** The lines of the new tables, each behind a blank line (the first one if `gap`). */
  function TableLines(tables: seq<NewTable>, gap: bool): seq<Line> {
    if tables == [] then [] else
      (if gap then [Blank("")] else []) + [Header(tables[0].name, false)] + tables[0].lines
      + TableLines(tables[1..], true)
  }

  /** In front of a line, going up over the comments stuck above it (blank: over blank lines too). */
  method Above(lines: seq<Line>, q0: nat, blank: bool) returns (q: nat)
    requires q0 <= |lines|
    ensures q <= q0 && forall j :: q <= j < q0 ==> Silent(lines[j])
    ensures blank && q > 0 ==> !Silent(lines[q - 1])
  {
    q := q0;
    while q > 0 && (lines[q - 1].Note? || (blank && lines[q - 1].Blank?))
      invariant q <= q0 && forall j :: q <= j < q0 ==> Silent(lines[j])
    {
      q := q - 1;
    }
  }

  // ---- The lines in front of the first header ----

  ghost predicate NoHeaderBefore(lines: seq<Line>, q: nat) {
    q <= |lines| && forall j :: 0 <= j < q ==> !lines[j].Header?
  }

  lemma {:induction false} RootPlace(lines: seq<Line>, q: nat)
    requires NoHeaderBefore(lines, q)
    ensures PlaceAt(lines, q) == ROOT
  {
    if q > 0 {
      RootPlace(lines, q - 1);
    }
  }

  lemma {:induction false} NoTunnelYet(lines: seq<Line>, limit: nat, j: nat)
    requires FirstTunnel(lines, limit) && j <= limit
    ensures !Seen(PlaceAt(lines, j))
  {
    if j > 0 {
      NoTunnelYet(lines, limit, j - 1);
    }
  }

  // Past a header the root is over.
  lemma {:induction false} RootIsFirst(lines: seq<Line>, q: nat)
    requires WellFormed(lines) && q <= |lines| && PlaceAt(lines, q).Table? && PlaceAt(lines, q).path == []
    ensures NoHeaderBefore(lines, q)
    decreases q
  {
    if q > 0 {
      NamedPlace(lines, q);
      RootIsFirst(lines, q - 1);
    }
  }

  lemma NamedPlace(lines: seq<Line>, q: nat)
    requires WellFormed(lines) && 0 < q <= |lines|
    ensures lines[q - 1].Header? ==> !(PlaceAt(lines, q).Table? && PlaceAt(lines, q).path == [])
  {
  }

  method FirstHead(lines: seq<Line>, sc: Scan) returns (q: nat)
    requires Scanned(lines, sc)
    ensures q <= sc.firstBlock && NoHeaderBefore(lines, q)
  {
    hide PlaceAt;
    q := sc.firstBlock;
    for i := 0 to |sc.headers|
      invariant q <= sc.firstBlock
      invariant forall k :: 0 <= k < i ==> q <= sc.headers[k].at
    {
      assert sc.headers[i] in sc.headers;
      q := if sc.headers[i].at < q then sc.headers[i].at else q;
    }
    forall j | 0 <= j < q ensures !lines[j].Header? {
      NotAHead(lines, sc, q, j);
    }
  }

  lemma NotAHead(lines: seq<Line>, sc: Scan, q: nat, j: nat)
    requires Scanned(lines, sc) && j < q <= sc.firstBlock && forall h :: h in sc.headers ==> q <= h.at
    ensures !lines[j].Header?
  {
    NoTunnelYet(lines, sc.firstBlock, j + 1);
    assert !PlaceAt(lines, j + 1).Block?;
    assert lines[j].Header? ==> HeadOf(lines, Head(j, lines[j].name, lines[j].isArray));
  }

  // ---- What the lines of new tables say ----

  lemma {:induction false} TableLinesRead(tables: seq<NewTable>, gap: bool, place: Place, p: Path, v: string)
    requires forall t :: t in tables ==> t.name != [] && Entries(t.lines)
    requires !Seen(place)
    ensures Says(Reads(place, TableLines(tables, gap)), p, v) <==> TablesSay(tables, p, v)
    ensures HeldOf(Reads(place, TableLines(tables, gap))) == [] && Notes(TableLines(tables, gap)) == []
    ensures tables != [] ==> After(place, TableLines(tables, gap)).Table?
    ensures tables == [] ==> After(place, TableLines(tables, gap)) == place
  {
    hide Says, TablesSay, Reads, HeldOf, Notes, After, Entries;
    if tables == [] {
      NoTables(place, p, v);
    } else {
      var t, rest := tables[0], tables[1..];
      assert t in tables && tables == [t] + rest;
      var a, b := if gap then [Blank("")] else [], TableLines(rest, true);
      assert TableLines(tables, gap) == a + [Header(t.name, false)] + t.lines + b;
      HeadRead(place, a, t);
      var c := a + [Header(t.name, false)];
      EntriesPlain(t.lines);
      PlainKeeps(Table(t.name, false), t.lines);
      TableLinesRead(rest, true, Table(t.name, false), p, v);
      ThreeParts(place, c, t.lines, b, p, v);
      NothingSays(place, p, v);
      TablesApart(t, rest, p, v);
    }
  }

  lemma NoTables(place: Place, p: Path, v: string)
    ensures !TablesSay([], p, v) && !Says([], p, v) && Reads(place, []) == [] && HeldOf([]) == [] && Notes([]) == []
    ensures After(place, []) == place
  {
  }

  lemma HeadRead(place: Place, a: seq<Line>, t: NewTable)
    requires !Seen(place) && (a == [] || a == [Blank("")])
    ensures var c := a + [Header(t.name, false)];
            Reads(place, c) == [] && After(place, c) == Table(t.name, false) && Notes(c) == [] && HeldOf([]) == []
  {
    var h := Header(t.name, false);
    ReadsApart(place, a, [h]);
    NotesApart(a, [h]);
    ReadsOne(place, h);
    if a != [] {
      ReadsOne(place, a[0]);
    }
    assert Notes([h]) == [] && Notes([Blank("")]) == [];
  }

  lemma ThreeParts(place: Place, a: seq<Line>, b: seq<Line>, c: seq<Line>, p: Path, v: string)
    requires Reads(place, a) == []
    ensures var o := After(place, a); var o' := After(o, b);
            && (Says(Reads(place, a + b + c), p, v) <==> Says(Reads(o, b), p, v) || Says(Reads(o', c), p, v))
            && HeldOf(Reads(place, a + b + c)) == HeldOf(Reads(o, b)) + HeldOf(Reads(o', c))
            && Notes(a + b + c) == Notes(a) + Notes(b) + Notes(c)
            && After(place, a + b + c) == After(o', c)
  {
    hide Says, Reads, HeldOf, Notes, After;
    var o := After(place, a);
    ReadsApart(place, a + b, c);
    ReadsApart(place, a, b);
    assert [] + Reads(o, b) == Reads(o, b);
    SaysApart(Reads(o, b), Reads(After(o, b), c), p, v);
    HeldApart(Reads(o, b), Reads(After(o, b), c));
    NotesApart(a + b, c);
    NotesApart(a, b);
  }

  lemma {:induction false} NoTunnelAdded(tables: seq<NewTable>, gap: bool)
    requires forall t :: t in tables ==> Entries(t.lines)
    ensures forall x :: x in TableLines(tables, gap) ==> !TunnelHead(x)
  {
    if tables != [] {
      assert tables[0] in tables;
      NoTunnelAdded(tables[1..], true);
    }
  }

  lemma PlainNoHead(lines: seq<Line>)
    requires Plain(lines)
    ensures forall x :: x in lines ==> !TunnelHead(x)
  {
  }

  // ---- Adding at a position ----

  // Lines added behind others at the same position are read after them.
  lemma PushedSays(lines: seq<Line>, before: map<nat, seq<Line>>, q: nat, ls: seq<Line>, p: Path, v: string)
    requires q <= |lines| && (q in before ==> PlaceAt(lines, q).Table? && Plain(before[q]))
    ensures BeforeSays(lines, Push(before, q, ls), p, v)
       <==> BeforeSays(lines, before, p, v) || Says(Reads(PlaceAt(lines, q), ls), p, v)
  {
    hide Says, Reads, PlaceAt, Plain;
    var s := PlaceAt(lines, q);
    var before' := Push(before, q, ls);
    if q in before {
      PlainKeeps(s, before[q]);
      ReadsApart(s, before[q], ls);
      SaysApart(Reads(s, before[q]), Reads(s, ls), p, v);
    } else {
      assert [] + ls == ls;
    }
    assert SaysInFront(lines, before', q, p, v) <==> SaysInFront(lines, before, q, p, v) || Says(Reads(s, ls), p, v);
    forall q': nat | q' != q ensures SaysInFront(lines, before', q', p, v) <==> SaysInFront(lines, before, q', p, v) {
    }
  }

  lemma WithBlank(place: Place, ls: seq<Line>, sep: seq<Line>, p: Path, v: string)
    requires sep == [] || sep == [Blank("")]
    ensures Says(Reads(place, ls + sep), p, v) <==> Says(Reads(place, ls), p, v)
    ensures HeldOf(Reads(place, ls + sep)) == HeldOf(Reads(place, ls)) && Notes(ls + sep) == Notes(ls)
    ensures After(place, ls + sep) == After(place, ls)
  {
    hide Says, Reads, HeldOf, Notes, After;
    ReadsApart(place, ls, sep);
    var o := After(place, ls);
    NoTables(o, p, v);
    if sep != [] {
      ReadsOne(o, sep[0]);
      BlankIsNoNote();
      NotesApart(ls, sep);
    } else {
      assert ls + sep == ls;
    }
    assert Reads(place, ls) + [] == Reads(place, ls);
  }

  lemma WithBlankCounts(place: Place, ls: seq<Line>, sep: seq<Line>, k: Path)
    requires sep == [] || sep == [Blank("")]
    ensures LinesCount(place, ls + sep, k) == LinesCount(place, ls, k)
  {
    hide Reads, KeyCount, After;
    ReadsApart(place, ls, sep);
    var o := After(place, ls);
    CountNone(k);
    if sep != [] {
      ReadsOne(o, sep[0]);
    } else {
      assert ls + sep == ls;
    }
    assert Reads(place, ls) + [] == Reads(place, ls);
  }

  lemma {:induction false} TableLinesCount(tables: seq<NewTable>, gap: bool, place: Place, k: Path)
    requires forall t :: t in tables ==> t.name != [] && Entries(t.lines)
    requires !Seen(place)
    ensures LinesCount(place, TableLines(tables, gap), k) == TablesCount(tables, k)
  {
    hide Reads, KeyCount, Notes, After, Entries;
    if tables == [] {
      NoTables(place, [], "");
      CountNone(k);
    } else {
      var t, rest := tables[0], tables[1..];
      assert t in tables && tables == [t] + rest;
      var a, b := if gap then [Blank("")] else [], TableLines(rest, true);
      var c := a + [Header(t.name, false)];
      assert TableLines(tables, gap) == c + t.lines + b;
      HeadRead(place, a, t);
      EntriesPlain(t.lines);
      PlainKeeps(Table(t.name, false), t.lines);
      TableLinesCount(rest, true, Table(t.name, false), k);
      ReadsApart(place, c + t.lines, b);
      ReadsApart(place, c, t.lines);
      assert [] + Reads(Table(t.name, false), t.lines) == Reads(Table(t.name, false), t.lines);
      CountApart(Reads(Table(t.name, false), t.lines), Reads(Table(t.name, false), b), k);
    }
  }

  lemma BlankIsNoNote()
    ensures Notes([Blank("")]) == []
  {
  }

  // ---- The final positions ----

  /** Every line added stands where it is read as meant. */
  ghost predicate Placed(lines: seq<Line>, before: map<nat, seq<Line>>) {
    forall q :: q in before ==> AddOk(lines, Plan(before, {}, map[]), q)
  }

  ghost predicate InTables(lines: seq<Line>, before: map<nat, seq<Line>>) {
    forall q :: q in before ==> q <= |lines| && PlaceAt(lines, q).Table? && Plain(before[q])
  }

  /** Adds the root keys and the new tables. */
  method PlaceAdds(lines: seq<Line>, sc: Scan, adds: Adds) returns (before: map<nat, seq<Line>>)
    requires WellFormed(lines) && Scanned(lines, sc) && AddsOk(lines, adds)
    ensures Placed(lines, before)
    ensures forall p, v :: BeforeSays(lines, before, p, v) <==> AddsSay(lines, adds, p, v)
    ensures forall k :: AddedCount(lines, before, 0, k) == AddsCount(lines, adds, k)
  {
    hide PlaceAt, WellFormed, AddsOk, TableLines, Entries, BeforeSays, TablesSay, Behind, AddedCount, LinesCount, TablesCount;
    var n := |lines|;
    var tablesAt := -1;
    if adds.tables != [] {
      tablesAt := Above(lines, sc.firstBlock, true);
    }
    before := adds.before;
    var rootAt := adds.rootAt;
    BehindInTables(lines, adds);
    if adds.root != [] {
      var q: nat := FirstHead(lines, sc);
      var first := q;
      if q < n {
        q := Above(lines, q, false);
      } else {
        while q > 0 && lines[q - 1].Blank?
          invariant q <= first
        {
          q := q - 1;
        }
      }
      rootAt := if q > rootAt then q else rootAt;
      var joined := adds.tables != [] && tablesAt <= q;
      var sep := if !joined && q < n && !lines[q].Blank? then [Blank("")] else [];
      before := Push(before, q, adds.root + sep);
      RootPlaced(lines, adds, q, sep);
    }
    assert RootDone(lines, sc, adds, before, rootAt) by {
      if adds.root == [] {
        NoRoot(lines, sc, adds);
      } else {
        RootBound(lines, sc, adds);
      }
    }
    if adds.tables != [] {
      var q: nat := if tablesAt > rootAt then tablesAt else rootAt;
      var sep := if q < n && !lines[q].Blank? then [Blank("")] else [];
      var ls := TableLines(adds.tables, q > 0 || q in before) + sep;
      TablesPlaced(lines, sc, adds, before, rootAt, tablesAt, q, q > 0 || q in before, sep);
      before := Push(before, q, ls);
    } else {
      NoTablesPlaced(lines, adds, before);
    }
  }

  // ---- Root keys ----

  /** The root keys are placed: no line is added behind rootAt and up to the first tunnel unless a
      setting or a header stands right above it. */
  ghost predicate RootDone(lines: seq<Line>, sc: Scan, adds: Adds, before: map<nat, seq<Line>>, rootAt: int) {
    && InTables(lines, before)
    && rootAt <= sc.firstBlock
    && (forall q :: q in before ==> q <= rootAt || Behind(lines, q))
    && (forall p, v :: BeforeSays(lines, before, p, v)
                  <==> BeforeSays(lines, adds.before, p, v) || Says(Reads(ROOT, adds.root), p, v))
    && forall k :: AddedCount(lines, before, 0, k) == AddedCount(lines, adds.before, 0, k) + LinesCount(ROOT, adds.root, k)
  }

  lemma BehindInTables(lines: seq<Line>, adds: Adds)
    requires AddsOk(lines, adds)
    ensures InTables(lines, adds.before) && forall q :: q in adds.before ==> Behind(lines, q)
  {
    hide PlaceAt;
  }

  lemma RootBound(lines: seq<Line>, sc: Scan, adds: Adds)
    requires WellFormed(lines) && Scanned(lines, sc) && AddsOk(lines, adds)
    ensures adds.rootAt <= sc.firstBlock
  {
    hide PlaceAt, WellFormed;
    if adds.rootAt > 0 {
      RootIsFirst(lines, adds.rootAt);
    }
  }

  lemma NoRoot(lines: seq<Line>, sc: Scan, adds: Adds)
    requires WellFormed(lines) && Scanned(lines, sc) && AddsOk(lines, adds) && adds.root == []
    ensures RootDone(lines, sc, adds, adds.before, adds.rootAt)
  {
    hide PlaceAt, WellFormed, BeforeSays, Says;
    BehindInTables(lines, adds);
    RootBound(lines, sc, adds);
    forall p, v ensures !Says(Reads(ROOT, adds.root), p, v) {
      NothingSays(ROOT, p, v);
    }
    forall k ensures LinesCount(ROOT, [], k) == 0 {
      PushedCounts(ROOT, [], [], k);
    }
  }

  lemma RootPlaced(lines: seq<Line>, adds: Adds, q: nat, sep: seq<Line>)
    requires AddsOk(lines, adds) && NoHeaderBefore(lines, q) && (sep == [] || sep == [Blank("")])
    ensures var before := Push(adds.before, q, adds.root + sep);
            && InTables(lines, before)
            && (forall q' :: q' in before ==> q' == q || Behind(lines, q'))
            && (forall p, v :: BeforeSays(lines, before, p, v)
                          <==> BeforeSays(lines, adds.before, p, v) || Says(Reads(ROOT, adds.root), p, v))
            && forall k :: AddedCount(lines, before, 0, k)
                        == AddedCount(lines, adds.before, 0, k) + LinesCount(ROOT, adds.root, k)
  {
    hide PlaceAt, BeforeSays, Says, Reads, AddedCount, LinesCount;
    BehindInTables(lines, adds);
    RootPlace(lines, q);
    EntriesPlain(adds.root);
    forall p, v ensures BeforeSays(lines, Push(adds.before, q, adds.root + sep), p, v)
                   <==> BeforeSays(lines, adds.before, p, v) || Says(Reads(ROOT, adds.root), p, v) {
      PushedSays(lines, adds.before, q, adds.root + sep, p, v);
      WithBlank(ROOT, adds.root, sep, p, v);
    }
    forall k ensures AddedCount(lines, Push(adds.before, q, adds.root + sep), 0, k)
                  == AddedCount(lines, adds.before, 0, k) + LinesCount(ROOT, adds.root, k) {
      PushCounts(lines, adds.before, q, adds.root + sep, k, 0);
      WithBlankCounts(ROOT, adds.root, sep, k);
    }
  }

  // ---- New tables ----

  lemma NoTablesPlaced(lines: seq<Line>, adds: Adds, before: map<nat, seq<Line>>)
    requires adds.tables == [] && InTables(lines, before)
    ensures Placed(lines, before)
    ensures forall p, v :: !TablesSay(adds.tables, p, v)
    ensures forall k :: TablesCount(adds.tables, k) == 0
  {
    hide PlaceAt;
  }

  lemma TablesPlaced(lines: seq<Line>, sc: Scan, adds: Adds, before: map<nat, seq<Line>>, rootAt: int,
                     tablesAt: nat, q: nat, gap: bool, sep: seq<Line>)
    requires Scanned(lines, sc) && AddsOk(lines, adds) && RootDone(lines, sc, adds, before, rootAt)
    requires adds.tables != [] && (sep == [] || sep == [Blank("")])
    requires tablesAt <= sc.firstBlock && forall j :: tablesAt <= j < sc.firstBlock ==> Silent(lines[j])
    requires q == if tablesAt > rootAt then tablesAt else rootAt
    ensures var before' := Push(before, q, TableLines(adds.tables, gap) + sep);
            && Placed(lines, before')
            && (forall p, v :: BeforeSays(lines, before', p, v) <==> AddsSay(lines, adds, p, v))
            && forall k :: AddedCount(lines, before', 0, k) == AddsCount(lines, adds, k)
  {
    hide PlaceAt, BeforeSays, Says, Reads, TableLines, TablesSay, HeldOf, Notes, Plain, TailTo, AddedCount, LinesCount, TablesCount;
    var s, ls := PlaceAt(lines, q), TableLines(adds.tables, gap) + sep;
    var before' := Push(before, q, ls);
    NoTunnelYet(lines, sc.firstBlock, q);
    TablesTail(lines, sc, before, before', rootAt, tablesAt, q);
    TablesHold(lines, before, q, adds, gap, sep);
    assert Tail(lines, Plan(before', {}, map[]), q);
    forall p, v ensures BeforeSays(lines, before', p, v) <==> AddsSay(lines, adds, p, v) {
      PushedSays(lines, before, q, ls, p, v);
      WithBlank(s, TableLines(adds.tables, gap), sep, p, v);
      TableLinesRead(adds.tables, gap, s, p, v);
    }
    forall k ensures AddedCount(lines, before', 0, k) == AddsCount(lines, adds, k) {
      PushCounts(lines, before, q, ls, k, 0);
      WithBlankCounts(s, TableLines(adds.tables, gap), sep, k);
      TableLinesCount(adds.tables, gap, s, k);
    }
  }

  lemma TablesTail(lines: seq<Line>, sc: Scan, before: map<nat, seq<Line>>, before': map<nat, seq<Line>>,
                   rootAt: int, tablesAt: nat, q: nat)
    requires Scanned(lines, sc) && rootAt <= sc.firstBlock
    requires forall q :: q in before ==> q <= rootAt || Behind(lines, q)
    requires forall j :: j in before' ==> j == q || j in before
    requires tablesAt <= sc.firstBlock && forall j :: tablesAt <= j < sc.firstBlock ==> Silent(lines[j])
    requires q == if tablesAt > rootAt then tablesAt else rootAt
    ensures TailTo(lines, Plan(before', {}, map[]), q, sc.firstBlock)
  {
    hide PlaceAt;
    forall j | q < j <= sc.firstBlock ensures j !in before' {
      assert Silent(lines[j - 1]);
      assert !Behind(lines, j);
    }
  }

  lemma TablesHold(lines: seq<Line>, before: map<nat, seq<Line>>, q: nat, adds: Adds, gap: bool, sep: seq<Line>)
    requires InTables(lines, before) && AddsOk(lines, adds) && (sep == [] || sep == [Blank("")])
    requires q <= |lines| && !Seen(PlaceAt(lines, q))
    ensures var b := Push(before, q, TableLines(adds.tables, gap) + sep)[q];
            HeldOf(Reads(PlaceAt(lines, q), b)) == [] && Notes(b) == [] && forall x :: x in b ==> !TunnelHead(x)
  {
    hide PlaceAt, Says, Reads, TableLines, TablesSay, HeldOf, Notes, Plain;
    var s, ls := PlaceAt(lines, q), TableLines(adds.tables, gap);
    TableLinesRead(adds.tables, gap, s, [], "");
    WithBlank(s, ls, sep, [], "");
    NoTunnelAdded(adds.tables, gap);
    if q in before {
      PlainNoHead(before[q]);
      PlainKeeps(s, before[q]);
      ReadsApart(s, before[q], ls + sep);
      HeldApart(Reads(s, before[q]), Reads(s, ls + sep));
      NotesApart(before[q], ls + sep);
    } else {
      assert [] + (ls + sep) == ls + sep;
    }
  }
}
