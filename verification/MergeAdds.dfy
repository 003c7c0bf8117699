/** A merged key that the file does not hold yet: where its line goes. */
module MergeAdds {
  import opened InlineTables
  import opened TomlStrings
  import opened InlineValues
  import opened TomlLines
  import opened MergePlan
  import opened MergeCounts
  import opened MergeScan

  /** A table added by the merge, with its lines. */
  datatype NewTable = NewTable(name: Path, lines: seq<Line>)

  /** before: lines added in front of a position. root: root keys still to be placed.
      rootAt: last position where a root key goes (-1: none), new tables stay behind it. */
  datatype Adds = Adds(before: map<nat, seq<Line>>, tables: seq<NewTable>, root: seq<Line>, rootAt: int)

  /** Just behind a setting or a table header. */
  predicate Behind(lines: seq<Line>, q: nat) {
    0 < q <= |lines| && PlaceAt(lines, q).Table? && (IsSetting(lines, q - 1) || lines[q - 1].Header?)
  }

  predicate Entries(ls: seq<Line>) {
    forall x :: x in ls ==> x.Entry?
  }

  ghost predicate AddsOk(lines: seq<Line>, adds: Adds) {
    && (forall q :: q in adds.before ==> Behind(lines, q) && Entries(adds.before[q]))
    && (forall t :: t in adds.tables ==> t.name != [] && Entries(t.lines))
    && Entries(adds.root)
    && (adds.rootAt == -1
        || (adds.rootAt > 0 && Behind(lines, adds.rootAt) && PlaceAt(lines, adds.rootAt).path == []))
  }

  // ---- What the added lines say ----

  ghost predicate BeforeSays(lines: seq<Line>, before: map<nat, seq<Line>>, p: Path, v: string) {
    exists q: nat :: SaysInFront(lines, before, q, p, v)
  }

  ghost predicate SaysInFront(lines: seq<Line>, before: map<nat, seq<Line>>, q: nat, p: Path, v: string) {
    q <= |lines| && q in before && Says(Reads(PlaceAt(lines, q), before[q]), p, v)
  }

  ghost predicate TableSays(t: NewTable, p: Path, v: string) {
    Says(Reads(Table(t.name, false), t.lines), p, v)
  }

  ghost predicate TablesSay(tables: seq<NewTable>, p: Path, v: string) {
    exists t :: t in tables && TableSays(t, p, v)
  }

  ghost predicate AddsSay(lines: seq<Line>, adds: Adds, p: Path, v: string) {
    || BeforeSays(lines, adds.before, p, v)
    || TablesSay(adds.tables, p, v)
    || Says(Reads(ROOT, adds.root), p, v)
  }

  function TablesCount(tables: seq<NewTable>, k: Path): nat {
    if tables == [] then 0 else LinesCount(Table(tables[0].name, false), tables[0].lines, k) + TablesCount(tables[1..], k)
  }

  /** Times that the added lines give a key. */
  function AddsCount(lines: seq<Line>, adds: Adds, k: Path): nat {
    AddedCount(lines, adds.before, 0, k) + TablesCount(adds.tables, k) + LinesCount(ROOT, adds.root, k)
  }

  lemma EntriesPlain(ls: seq<Line>)
    requires Entries(ls)
    ensures Plain(ls)
  {
  }

  // One line more at the end says one binding more.
  lemma OneMore(place: Place, ls: seq<Line>, rel: Path, raw: string, p: Path, v: string)
    requires Entries(ls) && place.Table? && !IsInline(raw)
    ensures Says(Reads(place, ls + [Entry(rel, raw, "")]), p, v)
       <==> Says(Reads(place, ls), p, v) || (p == place.path + rel && v == Unquote(raw))
  {
    hide Says, Unquote;
    var x := Entry(rel, raw, "");
    EntriesPlain(ls);
    PlainKeeps(place, ls);
    ReadsApart(place, ls, [x]);
    ReadsOne(place, x);
    SaysApart(Reads(place, ls), [Bind(place.path + rel, raw, "")], p, v);
    BindSays(place.path + rel, raw, p, v);
  }

  lemma OneMoreCounts(place: Place, ls: seq<Line>, rel: Path, raw: string, k: Path)
    requires Entries(ls) && place.Table?
    ensures LinesCount(place, ls + [Entry(rel, raw, "")], k) == LinesCount(place, ls, k) + (if k == place.path + rel then 1 else 0)
    ensures LinesCount(place, [Entry(rel, raw, "")], k) == if k == place.path + rel then 1 else 0
  {
    hide Reads, KeyCount;
    var x := Entry(rel, raw, "");
    EntriesPlain(ls);
    PushedCounts(place, ls, [x], k);
    ReadsOne(place, x);
    OneLineCounts(place, x, k);
  }

  lemma {:induction false} AddToCounts(tables: seq<NewTable>, sec: Path, last: Path, raw: string, k: Path)
    requires forall t :: t in tables ==> Entries(t.lines)
    ensures TablesCount(AddTo(tables, sec, Entry(last, raw, "")), k) == TablesCount(tables, k) + if k == sec + last then 1 else 0
  {
    hide LinesCount;
    var x := Entry(last, raw, "");
    if tables == [] {
      OneMoreCounts(Table(sec, false), [], last, raw, k);
      assert AddTo(tables, sec, x)[1..] == [];
    } else {
      var t, rest := tables[0], tables[1..];
      if t.name == sec {
        OneMoreCounts(Table(sec, false), t.lines, last, raw, k);
        assert AddTo(tables, sec, x)[1..] == rest;
      } else {
        AddToCounts(rest, sec, last, raw, k);
        assert AddTo(tables, sec, x)[1..] == AddTo(rest, sec, x);
      }
    }
  }

  lemma BindSays(k: Path, raw: string, p: Path, v: string)
    requires !IsInline(raw)
    ensures Says([Bind(k, raw, "")], p, v) <==> p == k && v == Unquote(raw)
  {
    hide Unquote, IsInline;
    var f := Bind(k, raw, "");
    assert f in [f] && (Tells(f, p, v) <==> p == k && v == Unquote(raw));
  }

  lemma PushSays(lines: seq<Line>, before: map<nat, seq<Line>>, q: nat, rel: Path, raw: string, p: Path, v: string)
    requires Behind(lines, q) && (q in before ==> Entries(before[q])) && !IsInline(raw)
    ensures BeforeSays(lines, Push(before, q, [Entry(rel, raw, "")]), p, v)
       <==> BeforeSays(lines, before, p, v) || (p == PlaceAt(lines, q).path + rel && v == Unquote(raw))
  {
    hide Says, Unquote, Reads, PlaceAt;
    var x := Entry(rel, raw, "");
    var before' := Push(before, q, [x]);
    var was := if q in before then before[q] else [];
    OneMore(PlaceAt(lines, q), was, rel, raw, p, v);
    NothingSays(PlaceAt(lines, q), p, v);
    assert SaysInFront(lines, before', q, p, v)
      <==> SaysInFront(lines, before, q, p, v) || (p == PlaceAt(lines, q).path + rel && v == Unquote(raw));
    forall q': nat | q' != q ensures SaysInFront(lines, before', q', p, v) <==> SaysInFront(lines, before, q', p, v) {
    }
  }

  // ---- New tables ----

  /** The lines of table `sec`, one line longer; a table not there yet comes last. */
  function AddTo(tables: seq<NewTable>, sec: Path, line: Line): seq<NewTable> {
    if tables == [] then [NewTable(sec, [line])]
    else if tables[0].name == sec then [NewTable(sec, tables[0].lines + [line])] + tables[1..]
    else [tables[0]] + AddTo(tables[1..], sec, line)
  }

  lemma TablesApart(a: NewTable, rest: seq<NewTable>, p: Path, v: string)
    ensures TablesSay([a] + rest, p, v) <==> TableSays(a, p, v) || TablesSay(rest, p, v)
  {
    hide TableSays;
    if TableSays(a, p, v) {
      assert a in [a] + rest;
    }
    if TablesSay(rest, p, v) {
      var t :| t in rest && TableSays(t, p, v);
      assert t in [a] + rest;
    }
  }

  lemma {:induction false} AddToSays(tables: seq<NewTable>, sec: Path, last: Path, raw: string, p: Path, v: string)
    requires (forall t :: t in tables ==> Entries(t.lines)) && !IsInline(raw)
    ensures TablesSay(AddTo(tables, sec, Entry(last, raw, "")), p, v)
       <==> TablesSay(tables, p, v) || (p == sec + last && v == Unquote(raw))
  {
    hide TableSays, TablesSay, Unquote;
    var x := Entry(last, raw, "");
    if tables == [] {
      assert [] + [x] == [x];
      NewTableSays(NewTable(sec, []), last, raw, p, v);
      TablesApart(NewTable(sec, [] + [x]), [], p, v);
      assert [NewTable(sec, [] + [x])] + [] == AddTo(tables, sec, x);
      NoTablesSay(sec, p, v);
    } else {
      var t, rest := tables[0], tables[1..];
      assert tables == [t] + rest;
      TablesApart(t, rest, p, v);
      if t.name == sec {
        NewTableSays(t, last, raw, p, v);
        TablesApart(NewTable(sec, t.lines + [x]), rest, p, v);
      } else {
        AddToSays(rest, sec, last, raw, p, v);
        TablesApart(t, AddTo(rest, sec, x), p, v);
      }
    }
  }

  lemma NoTablesSay(sec: Path, p: Path, v: string)
    ensures !TablesSay([], p, v) && !TableSays(NewTable(sec, []), p, v)
  {
  }

  lemma NewTableSays(t: NewTable, last: Path, raw: string, p: Path, v: string)
    requires Entries(t.lines) && !IsInline(raw)
    ensures TableSays(NewTable(t.name, t.lines + [Entry(last, raw, "")]), p, v)
       <==> TableSays(t, p, v) || (p == t.name + last && v == Unquote(raw))
  {
    hide Reads, Says, Unquote;
    OneMore(Table(t.name, false), t.lines, last, raw, p, v);
  }

  lemma {:induction false} AddToOk(tables: seq<NewTable>, sec: Path, line: Line)
    requires sec != [] && line.Entry? && forall t :: t in tables ==> t.name != [] && Entries(t.lines)
    ensures forall t :: t in AddTo(tables, sec, line) ==> t.name != [] && Entries(t.lines)
  {
    if tables != [] && tables[0].name != sec {
      AddToOk(tables[1..], sec, line);
    }
  }

  // ---- The home of a key ----

  /** Number of segments that two keys share at the start. */
  function SharedSegs(a: Path, b: Path): nat {
    if a != [] && b != [] && a[0] == b[0] then 1 + SharedSegs(a[1..], b[1..]) else 0
  }

  /** Home table: the longest header that contains the key, otherwise the root. */
  method Home(sc: Scan, sec: Path) returns (home: Path)
    ensures home <= sec
    ensures home != [] ==> exists h :: h in sc.headers && !h.isArray && h.name == home
    ensures forall h :: h in sc.headers && !h.isArray && h.name <= sec ==> |h.name| <= |home|
  {
    home := [];
    for i := 0 to |sc.headers|
      invariant home <= sec
      invariant home != [] ==> exists h :: h in sc.headers && !h.isArray && h.name == home
      invariant forall j :: 0 <= j < i && !sc.headers[j].isArray && sc.headers[j].name <= sec ==> |sc.headers[j].name| <= |home|
    {
      var h := sc.headers[i];
      if !h.isArray && h.name <= sec && |h.name| > |home| {
        home := h.name;
      }
    }
  }

  /** Line of the first header of a table. */
  method HeadLine(sc: Scan, name: Path) returns (at: nat)
    requires exists h :: h in sc.headers && !h.isArray && h.name == name
    ensures Head(at, name, false) in sc.headers
    ensures exists i :: FirstNamed(sc, name, i) && sc.headers[i].at == at
  {
    var i := 0;
    while sc.headers[i].name != name || sc.headers[i].isArray
      invariant i < |sc.headers|
      invariant forall j :: 0 <= j < i ==> sc.headers[j].name != name || sc.headers[j].isArray
      invariant exists h :: h in sc.headers[i..] && !h.isArray && h.name == name
      decreases |sc.headers| - i
    {
      i := i + 1;
    }
    at := sc.headers[i].at;
    assert sc.headers[i] == Head(at, name, false) && FirstNamed(sc, name, i);
  }

  ghost predicate FirstNamed(sc: Scan, name: Path, i: int) {
    && 0 <= i < |sc.headers| && sc.headers[i].name == name && !sc.headers[i].isArray
    && forall j :: 0 <= j < i ==> sc.headers[j].name != name || sc.headers[j].isArray
  }

  /** The last of the settings of the table that share the most segments with the key. */
  ghost predicate Closest(sc: Scan, home: Path, key: Path, i: int) {
    && 0 <= i < |sc.settings| && sc.settings[i].table == home
    && (forall j :: 0 <= j < |sc.settings| && sc.settings[j].table == home ==>
          SharedSegs(sc.settings[j].key, key) <= SharedSegs(sc.settings[i].key, key))
    && (forall j :: i < j < |sc.settings| && sc.settings[j].table == home ==>
          SharedSegs(sc.settings[j].key, key) < SharedSegs(sc.settings[i].key, key))
  }

  lemma {:induction false} SharedIsMost(a: Path, b: Path, n: nat)
    ensures n <= SharedSegs(a, b) <==> n <= |a| && n <= |b| && a[..n] == b[..n]
  {
    if n > 0 {
      if a != [] && b != [] && a[0] == b[0] {
        SharedIsMost(a[1..], b[1..], n - 1);
        if n <= |a| && n <= |b| {
          assert a[..n] == [a[0]] + a[1..][..n - 1] && b[..n] == [b[0]] + b[1..][..n - 1];
          assert a[..n] == b[..n] ==> a[1..][..n - 1] == a[..n][1..] == b[..n][1..] == b[1..][..n - 1];
        }
      } else if n <= |a| && n <= |b| {
        assert a[..n][0] == a[0] && b[..n][0] == b[0];
      }
    } else {
      assert a[..0] == b[..0];
    }
  }

  /** Position behind the setting of the table that shares the most segments with the key. */
  method BestPlace(lines: seq<Line>, sc: Scan, home: Path, key: Path) returns (q: nat)
    requires Scanned(lines, sc) && Apt(lines, key) && home <= key
    ensures q == 0 ==> forall e :: e in sc.settings ==> e.table != home
    ensures q > 0 ==> Behind(lines, q) && PlaceAt(lines, q).path == home
    ensures q > 0 ==> exists i :: Closest(sc, home, key, i) && q == sc.settings[i].at + 1
  {
    hide FullKey, Scanned, SettingOf, PlaceAt, Apt;
    q := 0;
    var shared: nat := 0;
    ghost var best := 0;
    for i := 0 to |sc.settings|
      invariant q == 0 ==> forall j :: 0 <= j < i ==> sc.settings[j].table != home
      invariant q > 0 ==> Behind(lines, q) && PlaceAt(lines, q).path == home
      invariant q > 0 ==> 0 <= best < i && sc.settings[best].table == home && q == sc.settings[best].at + 1
                          && shared == SharedSegs(sc.settings[best].key, key)
      invariant q > 0 ==> forall j :: 0 <= j < i && sc.settings[j].table == home ==>
                            SharedSegs(sc.settings[j].key, key) <= shared && (j > best ==> SharedSegs(sc.settings[j].key, key) < shared)
    {
      var e := sc.settings[i];
      if e.table == home && (q == 0 || SharedSegs(e.key, key) >= shared) {
        AptSetting(lines, sc, e, key);
        BehindSetting(lines, e);
        q, shared, best := e.at + 1, SharedSegs(e.key, key), i;
      }
    }
    assert q > 0 ==> Closest(sc, home, key, best);
  }

  lemma BehindSetting(lines: seq<Line>, e: Setting)
    requires SettingOf(lines, e)
    ensures Behind(lines, e.at + 1) && PlaceAt(lines, e.at + 1).path == e.table
  {
  }

  /** A file without table headers, written with dotted keys. */
  predicate DottedStyle(sc: Scan) {
    (forall h :: h in sc.headers ==> h.isArray) && exists e :: e in sc.settings && |e.key| > 1
  }

  /** The table has keys under the next segment of the key. */
  predicate HasChild(sc: Scan, home: Path, key: Path)
    requires |home| < |key|
  {
    exists e :: e in sc.settings && e.table == home && Under(key[..|home| + 1], e.key)
  }

  // ---- One key ----

  ghost predicate AddedOne(lines: seq<Line>, adds: Adds, adds': Adds, key: Path, raw: string) {
    && AddsOk(lines, adds')
    && (forall p, v :: AddsSay(lines, adds', p, v) <==> AddsSay(lines, adds, p, v) || (p == key && v == Unquote(raw)))
    && forall p :: AddsCount(lines, adds', p) == AddsCount(lines, adds, p) + if p == key then 1 else 0
  }

  /** One more line for a new table: behind those it has already, or in a table of its own at the end. */
  ghost predicate InNewTable(tables: seq<NewTable>, tables': seq<NewTable>, sec: Path, x: Line) {
    if exists t :: t in tables && t.name == sec then
      exists i :: 0 <= i < |tables| && tables[i].name == sec && (forall j :: 0 <= j < i ==> tables[j].name != sec)
                  && tables' == tables[i := NewTable(sec, tables[i].lines + [x])]
    else tables' == tables + [NewTable(sec, [x])]
  }

  lemma {:induction false} AddToAt(tables: seq<NewTable>, sec: Path, x: Line) returns (k: nat)
    ensures k <= |tables| && forall j :: 0 <= j < k ==> tables[j].name != sec
    ensures k < |tables| ==> tables[k].name == sec && AddTo(tables, sec, x) == tables[k := NewTable(sec, tables[k].lines + [x])]
    ensures k == |tables| ==> AddTo(tables, sec, x) == tables + [NewTable(sec, [x])]
  {
    if tables == [] {
      k := 0;
    } else if tables[0].name == sec {
      k := 0;
      assert AddTo(tables, sec, x) == tables[0 := NewTable(sec, tables[0].lines + [x])];
    } else {
      var m := AddToAt(tables[1..], sec, x);
      k := m + 1;
      AddToNext(tables, sec, x, m);
    }
  }

  lemma AddToNext(tables: seq<NewTable>, sec: Path, x: Line, m: nat)
    requires tables != [] && tables[0].name != sec && m <= |tables[1..]|
    requires forall j :: 0 <= j < m ==> tables[1..][j].name != sec
    ensures forall j :: 0 <= j < m + 1 ==> tables[j].name != sec
    ensures m < |tables[1..]| && AddTo(tables[1..], sec, x) == tables[1..][m := NewTable(sec, tables[1..][m].lines + [x])] ==>
              AddTo(tables, sec, x) == tables[m + 1 := NewTable(sec, tables[m + 1].lines + [x])]
    ensures AddTo(tables[1..], sec, x) == tables[1..] + [NewTable(sec, [x])] ==> AddTo(tables, sec, x) == tables + [NewTable(sec, [x])]
  {
    hide AddTo;
    AddToSkips(tables, sec, x);
    var rest := tables[1..];
    forall j | 0 <= j < m + 1 ensures tables[j].name != sec {
      assert j > 0 ==> tables[j] == rest[j - 1];
    }
    if m < |rest| {
      assert [tables[0]] + rest[m := NewTable(sec, rest[m].lines + [x])] == tables[m + 1 := NewTable(sec, tables[m + 1].lines + [x])];
    }
    assert [tables[0]] + (rest + [NewTable(sec, [x])]) == tables + [NewTable(sec, [x])];
  }

  lemma AddToSkips(tables: seq<NewTable>, sec: Path, x: Line)
    requires tables != [] && tables[0].name != sec
    ensures AddTo(tables, sec, x) == [tables[0]] + AddTo(tables[1..], sec, x)
  {
  }

  lemma AddToIs(tables: seq<NewTable>, sec: Path, x: Line)
    ensures InNewTable(tables, AddTo(tables, sec, x), sec, x)
  {
    hide AddTo;
    var k := AddToAt(tables, sec, x);
    if k < |tables| {
      assert tables[k] in tables;
    }
  }

  /** The home of a key: the longest table with a header that contains it, or the root. */
  ghost predicate IsHome(sc: Scan, sec: Path, home: Path) {
    && home <= sec
    && (home != [] ==> exists h :: h in sc.headers && !h.isArray && h.name == home)
    && (forall h :: h in sc.headers && !h.isArray && h.name <= sec ==> |h.name| <= |home|)
  }

  /** Its section has neither a header nor a key below it, and the file is not one of dotted keys. */
  ghost predicate WantsTable(sc: Scan, home: Path, key: Path)
    requires |home| < |key|
  {
    && home != key[..|key| - 1]
    && !((forall h :: h in sc.headers ==> h.isArray) && exists e :: e in sc.settings && |e.key| > 1)
    && !(exists e :: e in sc.settings && e.table == home && Under(key[..|home| + 1], e.key))
  }

  /** Where a new key goes: in a new table when its section wants one; otherwise in its home, behind the closest
      setting, or else behind the first header of the home, or else among the root keys. */
  ghost predicate RightPlace(sc: Scan, adds: Adds, adds': Adds, key: Path, raw: string)
    requires key != []
  {
    exists home :: IsHome(sc, key[..|key| - 1], home) && |home| < |key| && RightPlaceIn(sc, adds, adds', home, key, raw)
  }

  ghost predicate RightPlaceIn(sc: Scan, adds: Adds, adds': Adds, home: Path, key: Path, raw: string)
    requires |home| < |key|
  {
    var line := Entry(key[|home|..], raw, "");
    if WantsTable(sc, home, key) then
      adds' == adds.(tables := adds'.tables)
      && InNewTable(adds.tables, adds'.tables, key[..|key| - 1], Entry([key[|key| - 1]], raw, ""))
    else if exists e :: e in sc.settings && e.table == home then
      exists i :: Closest(sc, home, key, i) && OneInFront(adds, adds', sc.settings[i].at + 1, line)
    else if home != [] then
      exists i :: FirstNamed(sc, home, i) && OneInFront(adds, adds', sc.headers[i].at + 1, line)
    else adds' == adds.(root := adds.root + [line])
  }

  ghost predicate OneInFront(adds: Adds, adds': Adds, q: nat, line: Line) {
    && adds'.tables == adds.tables && adds'.root == adds.root
    && adds'.before == adds.before[q := (if q in adds.before then adds.before[q] else []) + [line]]
  }

  method AddKey(lines: seq<Line>, sc: Scan, adds: Adds, key: Path, raw: string) returns (adds': Adds)
    requires WellFormed(lines) && Scanned(lines, sc) && AddsOk(lines, adds) && key != [] && Apt(lines, key) && !IsInline(raw)
    ensures AddedOne(lines, adds, adds', key, raw)
    ensures RightPlace(sc, adds, adds', key, raw)
  {
    hide WellFormed, AddsOk, AddedOne, Behind, HasChild, DottedStyle, FullKey, PlaceAt, Scanned, Apt, HeadOf, IsInline;
    hide RightPlaceIn, WantsTable, Closest, FirstNamed;
    var sec := key[..|key| - 1];
    var home := Home(sc, sec);
    assert WantsTable(sc, home, key) <==> sec != home && !DottedStyle(sc) && !HasChild(sc, home, key) by { WantsIs(sc, home, key); }
    if sec != home && !DottedStyle(sc) && !HasChild(sc, home, key) {
      adds' := adds.(tables := AddTo(adds.tables, sec, Entry(key[|key| - 1..], raw, "")));
      AddedToTable(lines, adds, key, raw);
      TablePlaced(sc, adds, home, key, raw);
    } else {
      var line := Entry(key[|home|..], raw, "");
      var q := BestPlace(lines, sc, home, key);
      if q > 0 {
        adds' := adds.(before := Push(adds.before, q, [line]),
                       rootAt := if home == [] && q > adds.rootAt then q else adds.rootAt);
        AddedBehind(lines, adds, adds', q, home, key, raw);
        BehindPlaced(sc, adds, adds', home, key, raw, q);
      } else if home != [] {
        var at := HeadLine(sc, home);
        adds' := adds.(before := Push(adds.before, at + 1, [line]));
        AptHead(lines, sc, Head(at, home, false), key);
        BehindHeader(lines, Head(at, home, false));
        AddedBehind(lines, adds, adds', at + 1, home, key, raw);
        HeadPlaced(sc, adds, adds', home, key, raw, at);
      } else {
        assert key[0..] == key;
        adds' := adds.(root := adds.root + [line]);
        AddedToRoot(lines, adds, key, raw);
        assert RightPlaceIn(sc, adds, adds', home, key, raw) by { RootPlaced(sc, adds, key, raw); }
      }
    }
  }

  lemma WantsIs(sc: Scan, home: Path, key: Path)
    requires |home| < |key|
    ensures WantsTable(sc, home, key) <==> key[..|key| - 1] != home && !DottedStyle(sc) && !HasChild(sc, home, key)
  {
  }

  lemma TablePlaced(sc: Scan, adds: Adds, home: Path, key: Path, raw: string)
    requires |home| < |key| && WantsTable(sc, home, key)
    ensures RightPlaceIn(sc, adds, adds.(tables := AddTo(adds.tables, key[..|key| - 1], Entry(key[|key| - 1..], raw, ""))), home, key, raw)
  {
    hide WantsTable, InNewTable, AddTo;
    AddToIs(adds.tables, key[..|key| - 1], Entry(key[|key| - 1..], raw, ""));
    assert key[|key| - 1..] == [key[|key| - 1]];
  }

  lemma BehindPlaced(sc: Scan, adds: Adds, adds': Adds, home: Path, key: Path, raw: string, q: nat)
    requires |home| < |key| && !WantsTable(sc, home, key)
    requires exists i :: Closest(sc, home, key, i) && q == sc.settings[i].at + 1
    requires adds' == adds.(before := Push(adds.before, q, [Entry(key[|home|..], raw, "")]), rootAt := adds'.rootAt)
    ensures RightPlaceIn(sc, adds, adds', home, key, raw)
  {
    hide WantsTable;
    var i :| Closest(sc, home, key, i) && q == sc.settings[i].at + 1;
    assert sc.settings[i] in sc.settings;
    assert OneInFront(adds, adds', sc.settings[i].at + 1, Entry(key[|home|..], raw, ""));
  }

  lemma HeadPlaced(sc: Scan, adds: Adds, adds': Adds, home: Path, key: Path, raw: string, at: nat)
    requires |home| < |key| && home != [] && !WantsTable(sc, home, key) && forall e :: e in sc.settings ==> e.table != home
    requires exists i :: FirstNamed(sc, home, i) && sc.headers[i].at == at
    requires adds' == adds.(before := Push(adds.before, at + 1, [Entry(key[|home|..], raw, "")]))
    ensures RightPlaceIn(sc, adds, adds', home, key, raw)
  {
    hide WantsTable;
    var i :| FirstNamed(sc, home, i) && sc.headers[i].at == at;
    assert OneInFront(adds, adds', sc.headers[i].at + 1, Entry(key[|home|..], raw, ""));
  }

  lemma RootPlaced(sc: Scan, adds: Adds, key: Path, raw: string)
    requires key != [] && !WantsTable(sc, [], key) && forall e :: e in sc.settings ==> e.table != []
    ensures RightPlaceIn(sc, adds, adds.(root := adds.root + [Entry(key, raw, "")]), [], key, raw)
  {
    hide WantsTable;
    assert key[0..] == key;
  }

  lemma BehindHeader(lines: seq<Line>, h: Head)
    requires HeadOf(lines, h) && !h.isArray
    ensures Behind(lines, h.at + 1) && PlaceAt(lines, h.at + 1).path == h.name
  {
  }

  lemma AddedBehind(lines: seq<Line>, adds: Adds, adds': Adds, q: nat, home: Path, key: Path, raw: string)
    requires AddsOk(lines, adds) && Behind(lines, q) && PlaceAt(lines, q).path == home && home <= key && !IsInline(raw)
    requires adds' == adds.(before := Push(adds.before, q, [Entry(key[|home|..], raw, "")]), rootAt := adds'.rootAt)
    requires adds'.rootAt == adds.rootAt || (adds'.rootAt == q && home == [])
    ensures AddedOne(lines, adds, adds', key, raw)
  {
    hide PlaceAt, Unquote, BeforeSays, TablesSay, Says, AddedCount, TablesCount, LinesCount;
    assert home + key[|home|..] == key;
    forall p, v
      ensures AddsSay(lines, adds', p, v) <==> AddsSay(lines, adds, p, v) || (p == key && v == Unquote(raw))
    {
      PushSays(lines, adds.before, q, key[|home|..], raw, p, v);
    }
    forall p ensures AddsCount(lines, adds', p) == AddsCount(lines, adds, p) + if p == key then 1 else 0 {
      BehindCounts(lines, adds.before, q, key[|home|..], raw, p);
    }
  }

  lemma BehindCounts(lines: seq<Line>, before: map<nat, seq<Line>>, q: nat, rel: Path, raw: string, k: Path)
    requires Behind(lines, q) && (q in before ==> Entries(before[q]))
    ensures AddedCount(lines, Push(before, q, [Entry(rel, raw, "")]), 0, k)
         == AddedCount(lines, before, 0, k) + if k == PlaceAt(lines, q).path + rel then 1 else 0
  {
    hide PlaceAt, LinesCount;
    PushCounts(lines, before, q, [Entry(rel, raw, "")], k, 0);
    OneMoreCounts(PlaceAt(lines, q), [], rel, raw, k);
  }

  lemma AddedToRoot(lines: seq<Line>, adds: Adds, key: Path, raw: string)
    requires AddsOk(lines, adds) && !IsInline(raw)
    ensures AddedOne(lines, adds, adds.(root := adds.root + [Entry(key, raw, "")]), key, raw)
  {
    hide PlaceAt, Unquote, BeforeSays, TablesSay, Says, Reads, AddedCount, TablesCount, LinesCount;
    assert [] + key == key;
    forall p, v
      ensures AddsSay(lines, adds.(root := adds.root + [Entry(key, raw, "")]), p, v)
         <==> AddsSay(lines, adds, p, v) || (p == key && v == Unquote(raw))
    {
      OneMore(ROOT, adds.root, key, raw, p, v);
    }
    forall p ensures AddsCount(lines, adds.(root := adds.root + [Entry(key, raw, "")]), p)
                  == AddsCount(lines, adds, p) + if p == key then 1 else 0 {
      OneMoreCounts(ROOT, adds.root, key, raw, p);
    }
  }

  lemma AddedToTable(lines: seq<Line>, adds: Adds, key: Path, raw: string)
    requires AddsOk(lines, adds) && |key| > 1 && !IsInline(raw)
    ensures var x := Entry(key[|key| - 1..], raw, "");
            AddedOne(lines, adds, adds.(tables := AddTo(adds.tables, key[..|key| - 1], x)), key, raw)
  {
    hide PlaceAt, Unquote, BeforeSays, TablesSay, Says, Reads, AddTo, AddedCount, TablesCount, LinesCount;
    var sec, last := key[..|key| - 1], key[|key| - 1..];
    assert sec + last == key;
    AddToOk(adds.tables, sec, Entry(last, raw, ""));
    forall p, v
      ensures AddsSay(lines, adds.(tables := AddTo(adds.tables, sec, Entry(last, raw, ""))), p, v)
         <==> AddsSay(lines, adds, p, v) || (p == key && v == Unquote(raw))
    {
      AddToSays(adds.tables, sec, last, raw, p, v);
    }
    forall p ensures AddsCount(lines, adds.(tables := AddTo(adds.tables, sec, Entry(last, raw, ""))), p)
                  == AddsCount(lines, adds, p) + if p == key then 1 else 0 {
      AddToCounts(adds.tables, sec, last, raw, p);
    }
  }
}
