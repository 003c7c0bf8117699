/** Setting one key of a configuration file, line by line. */
module SetKeys {
  import opened Wrappers
  import opened InlineTables
  import opened TomlLines

  // ---- Meaning ----

  /** The file gives key `k` the value `val`. */
  ghost predicate Binds(lines: seq<Line>, k: Path, val: string) {
    exists i: nat :: BindsAt(lines, k, val, i)
  }

  predicate BindsAt(lines: seq<Line>, k: Path, val: string, i: nat) {
    IsSetting(lines, i) && FullKey(lines, i) == k && lines[i].raw == val
  }

  function ValAt(lines: seq<Line>, i: nat): string
    requires IsSetting(lines, i)
  {
    lines[i].raw
  }

  /** No key is given twice. */
  ghost predicate KeysOnce(lines: seq<Line>) {
    forall i: nat, j: nat :: IsSetting(lines, i) && IsSetting(lines, j) && FullKey(lines, i) == FullKey(lines, j) ==> i == j
  }

  /** The first value of a key, from line `i` on. */
  function ValueFrom(lines: seq<Line>, k: Path, i: nat): Option<string>
    decreases |lines| - i
  {
    if i >= |lines| then None
    else if IsSetting(lines, i) && FullKey(lines, i) == k then Some(lines[i].raw)
    else ValueFrom(lines, k, i + 1)
  }

  function ValueOf(lines: seq<Line>, k: Path): Option<string> {
    ValueFrom(lines, k, 0)
  }

  lemma {:induction false} ValueIsBound(lines: seq<Line>, k: Path, i: nat)
    ensures match ValueFrom(lines, k, i)
            case None => forall j: nat :: i <= j && IsSetting(lines, j) ==> FullKey(lines, j) != k
            case Some(val) => Binds(lines, k, val)
    decreases |lines| - i
  {
    hide PlaceAt;
    if i < |lines| {
      if IsSetting(lines, i) && FullKey(lines, i) == k {
        assert BindsAt(lines, k, lines[i].raw, i);
      } else {
        ValueIsBound(lines, k, i + 1);
      }
    }
  }

  /** With no key given twice, looking a key up gives the value it is bound to. */
  lemma LooksUp(lines: seq<Line>, k: Path, val: string)
    requires KeysOnce(lines)
    ensures ValueOf(lines, k) == Some(val) <==> Binds(lines, k, val)
  {
    hide PlaceAt, ValueFrom;
    ValueIsBound(lines, k, 0);
    if Binds(lines, k, val) {
      var i: nat :| BindsAt(lines, k, val, i);
      match ValueOf(lines, k)
      case None =>
      case Some(val') =>
        var j: nat :| BindsAt(lines, k, val', j);
        assert i == j;
    }
  }

  // ---- One line replaced, or one line added ----

  lemma {:induction false} PlaceUpTo(a: seq<Line>, b: seq<Line>, i: nat)
    requires i <= |a| && i <= |b| && forall j :: 0 <= j < i ==> a[j] == b[j] || (a[j].Entry? && b[j].Entry?)
    ensures PlaceAt(a, i) == PlaceAt(b, i)
  {
    if i > 0 {
      PlaceUpTo(a, b, i - 1);
    }
  }

  lemma {:induction false} PlaceAfterInsert(lines: seq<Line>, at: nat, x: Line, i: nat)
    requires at < i <= |lines| + 1 && x.Entry?
    ensures PlaceAt(lines[..at] + [x] + lines[at..], i) == PlaceAt(lines, i - 1)
  {
    var out := lines[..at] + [x] + lines[at..];
    if i == at + 1 {
      PlaceUpTo(out, lines, at);
      assert out[at] == x;
    } else {
      assert out[i - 1] == lines[i - 2];
      PlaceAfterInsert(lines, at, x, i - 1);
    }
  }

  /** The key is set to `raw`; every other key, every tunnel and every comment is as before. */
  ghost predicate KeySet(lines: seq<Line>, out: seq<Line>, key: Path, raw: string) {
    && KeysOnce(out)
    && (forall k, val :: Binds(out, k, val) <==> if k == key then val == raw else Binds(lines, k, val))
    && HeldLines(out) == HeldLines(lines) && Notes(out) == Notes(lines)
  }

  lemma Replaced(lines: seq<Line>, m: nat, key: Path, raw: string)
    requires KeysOnce(lines) && IsSetting(lines, m) && FullKey(lines, m) == key
    ensures KeySet(lines, lines[m := Entry(lines[m].key, raw, "")], key, raw)
  {
    hide PlaceAt, HeldLines, Notes;
    var x := Entry(lines[m].key, raw, "");
    var out := lines[m := x];
    forall i: nat ensures IsSetting(out, i) <==> IsSetting(lines, i)
                  ensures IsSetting(out, i) ==> FullKey(out, i) == FullKey(lines, i) && (i != m ==> out[i].raw == lines[i].raw) {
      if i <= |lines| {
        PlaceUpTo(out, lines, i);
      }
    }
    forall k, val ensures Binds(out, k, val) <==> if k == key then val == raw else Binds(lines, k, val) {
      ReplacedBinds(lines, out, m, key, raw, k, val);
    }
    ReplacedHolds(lines, m, x);
  }

  lemma ReplacedBinds(lines: seq<Line>, out: seq<Line>, m: nat, key: Path, raw: string, k: Path, val: string)
    requires forall i: nat :: IsSetting(out, i) <==> IsSetting(lines, i)
    requires forall i: nat :: IsSetting(out, i) ==> FullKey(out, i) == FullKey(lines, i) && (i != m ==> out[i].raw == lines[i].raw)
    requires KeysOnce(lines) && IsSetting(lines, m) && FullKey(lines, m) == key
    requires IsSetting(out, m) && out[m].raw == raw
    ensures Binds(out, k, val) <==> if k == key then val == raw else Binds(lines, k, val)
  {
    hide PlaceAt, IsSetting;
    if Binds(out, k, val) {
      var i: nat :| BindsAt(out, k, val, i);
      assert k != key ==> BindsAt(lines, k, val, i);
    }
    if k == key && val == raw {
      assert BindsAt(out, k, val, m);
    }
    if k != key && Binds(lines, k, val) {
      var i: nat :| BindsAt(lines, k, val, i);
      assert BindsAt(out, k, val, i);
    }
  }

  lemma Around(a: seq<Line>, mid: seq<Line>, b: seq<Line>)
    ensures var place := After(ROOT, a);
            && Reads(ROOT, a + mid + b)
               == Reads(ROOT, a) + Reads(place, mid) + Reads(After(place, mid), b)
            && Notes(a + mid + b) == Notes(a) + Notes(mid) + Notes(b)
  {
    hide Reads, After, Notes;
    ReadsApart(ROOT, a + mid, b);
    ReadsApart(ROOT, a, mid);
    NotesApart(a + mid, b);
    NotesApart(a, mid);
  }

  lemma AfterIsPlace(lines: seq<Line>, i: nat)
    requires i <= |lines|
    ensures After(ROOT, lines[..i]) == PlaceAt(lines, i)
  {
    hide After;
    if i == 0 {
      ReadsApartNothing();
    } else {
      AfterIsPlace(lines, i - 1);
      assert lines[..i] == lines[..i - 1] + [lines[i - 1]];
      ReadsApart(ROOT, lines[..i - 1], [lines[i - 1]]);
      ReadsOne(PlaceAt(lines, i - 1), lines[i - 1]);
    }
  }

  lemma ReadsApartNothing()
    ensures After(ROOT, []) == ROOT && Notes([]) == [] && HeldOf([]) == []
    ensures forall s :: Reads(s, []) == []
  {
  }

  // A setting says nothing of tunnels or comments: it may come, go or change.
  lemma SettingsHoldNothing(a: seq<Line>, mid: seq<Line>, mid': seq<Line>, b: seq<Line>)
    requires After(ROOT, a).Table?
    requires mid == [] || (|mid| == 1 && mid[0].Entry?)
    requires mid' == [] || (|mid'| == 1 && mid'[0].Entry?)
    ensures HeldLines(a + mid + b) == HeldLines(a + mid' + b) && Notes(a + mid + b) == Notes(a + mid' + b)
  {
    hide Reads, After, Notes, HeldOf;
    SettingHoldsNothing(a, mid, b);
    SettingHoldsNothing(a, mid', b);
  }

  lemma SettingHoldsNothing(a: seq<Line>, mid: seq<Line>, b: seq<Line>)
    requires After(ROOT, a).Table?
    requires mid == [] || (|mid| == 1 && mid[0].Entry?)
    ensures HeldLines(a + mid + b) == HeldOf(Reads(ROOT, a)) + HeldOf(Reads(After(ROOT, a), b))
    ensures Notes(a + mid + b) == Notes(a) + Notes(b)
  {
    hide Reads, After, Notes, HeldOf;
    var place := After(ROOT, a);
    Around(a, mid, b);
    MiddleHoldsNothing(place, mid);
    var x, y, z := Reads(ROOT, a), Reads(place, mid), Reads(place, b);
    HeldApart(x + y, z);
    HeldApart(x, y);
  }

  lemma MiddleHoldsNothing(place: Place, mid: seq<Line>)
    requires place.Table? && (mid == [] || (|mid| == 1 && mid[0].Entry?))
    ensures After(place, mid) == place && HeldOf(Reads(place, mid)) == [] && Notes(mid) == []
  {
    if mid != [] {
      assert mid == [mid[0]] && mid[1..] == [];
      ReadsOne(place, mid[0]);
      assert ReadOne(place, mid[0])[1..] == [];
    }
  }

  lemma ReplacedHolds(lines: seq<Line>, m: nat, x: Line)
    requires IsSetting(lines, m) && x.Entry?
    ensures HeldLines(lines[m := x]) == HeldLines(lines) && Notes(lines[m := x]) == Notes(lines)
  {
    hide HeldLines, Notes;
    var a, b := lines[..m], lines[m + 1..];
    AfterIsPlace(lines, m);
    assert lines == a + [lines[m]] + b && lines[m := x] == a + [x] + b;
    SettingsHoldNothing(a, [lines[m]], [x], b);
  }

  function Insert(lines: seq<Line>, at: nat, x: Line): seq<Line>
    requires at <= |lines|
  {
    lines[..at] + [x] + lines[at..]
  }

  lemma Inserted(lines: seq<Line>, at: nat, rel: Path, key: Path, raw: string)
    requires KeysOnce(lines) && at <= |lines| && PlaceAt(lines, at).Table? && PlaceAt(lines, at).path + rel == key
    requires forall i: nat :: IsSetting(lines, i) ==> FullKey(lines, i) != key
    ensures KeySet(lines, Insert(lines, at, Entry(rel, raw, "")), key, raw)
  {
    hide PlaceAt, HeldLines, Notes, FullKey;
    var x := Entry(rel, raw, "");
    var out := Insert(lines, at, x);
    InsertedAt(lines, at, x);
    forall k, val ensures Binds(out, k, val) <==> if k == key then val == raw else Binds(lines, k, val) {
      InsertedBinds(lines, out, at, key, raw, k, val);
    }
    assert KeysOnce(out) by { InsertedOnce(lines, out, at, key); }
    AfterIsPlace(lines, at);
    assert lines == lines[..at] + [] + lines[at..];
    SettingsHoldNothing(lines[..at], [], [x], lines[at..]);
  }

  /** Line `i` of the file is line `Shift(i)` of the file with a line inserted. */
  function Shift(at: nat, i: nat): nat {
    if i < at then i else i + 1
  }

  ghost predicate Shifted(lines: seq<Line>, out: seq<Line>, at: nat, key: Path) {
    && IsSetting(out, at) && FullKey(out, at) == key
    && (forall i: nat :: IsSetting(lines, i) <==> IsSetting(out, Shift(at, i)))
    && (forall i: nat :: IsSetting(lines, i) && IsSetting(out, Shift(at, i)) ==>
          FullKey(out, Shift(at, i)) == FullKey(lines, i) && ValAt(out, Shift(at, i)) == ValAt(lines, i))
    && forall j: nat :: IsSetting(out, j) && j != at ==> exists i: nat :: IsSetting(lines, i) && j == Shift(at, i)
  }

  lemma InsertPlaces(lines: seq<Line>, at: nat, x: Line)
    requires at <= |lines|
    ensures var out := Insert(lines, at, x);
            |out| == |lines| + 1 && out[at] == x && PlaceAt(out, at) == PlaceAt(lines, at)
  {
    hide PlaceAt;
    PlaceUpTo(Insert(lines, at, x), lines, at);
  }

  lemma InsertedLine(lines: seq<Line>, at: nat, x: Line)
    requires at <= |lines| && PlaceAt(lines, at).Table? && x.Entry?
    ensures var out := Insert(lines, at, x);
            IsSetting(out, at) && FullKey(out, at) == PlaceAt(lines, at).path + x.key && out[at] == x
  {
    hide PlaceAt, Insert;
    InsertPlaces(lines, at, x);
  }

  lemma ShiftedLine(lines: seq<Line>, at: nat, x: Line, i: nat)
    requires at <= |lines| && PlaceAt(lines, at).Table? && x.Entry?
    ensures var out := Insert(lines, at, x);
            && (IsSetting(lines, i) <==> IsSetting(out, Shift(at, i)))
            && (IsSetting(lines, i) ==> FullKey(out, Shift(at, i)) == FullKey(lines, i) && ValAt(out, Shift(at, i)) == ValAt(lines, i))
  {
    hide PlaceAt;
    var out := Insert(lines, at, x);
    if i < at {
      PlaceUpTo(out, lines, i);
    } else if i < |lines| {
      PlaceAfterInsert(lines, at, x, i + 1);
      assert out[i + 1] == lines[i];
    }
  }

  lemma InsertedAt(lines: seq<Line>, at: nat, x: Line)
    requires at <= |lines| && PlaceAt(lines, at).Table? && x.Entry?
    ensures Shifted(lines, Insert(lines, at, x), at, PlaceAt(lines, at).path + x.key)
    ensures Insert(lines, at, x)[at] == x
  {
    hide PlaceAt, Insert, IsSetting, FullKey;
    var out := Insert(lines, at, x);
    InsertedLine(lines, at, x);
    forall i: nat ensures IsSetting(lines, i) <==> IsSetting(out, Shift(at, i)) {
      ShiftedLine(lines, at, x, i);
    }
    forall i: nat ensures IsSetting(lines, i) && IsSetting(out, Shift(at, i)) ==>
                            FullKey(out, Shift(at, i)) == FullKey(lines, i) && ValAt(out, Shift(at, i)) == ValAt(lines, i) {
      ShiftedLine(lines, at, x, i);
    }
    forall j: nat | IsSetting(out, j) && j != at ensures exists i: nat :: IsSetting(lines, i) && j == Shift(at, i) {
      var i := if j < at then j else j - 1;
      ShiftedLine(lines, at, x, i);
      assert IsSetting(lines, i) && j == Shift(at, i);
    }
  }

  lemma InsertedBinds(lines: seq<Line>, out: seq<Line>, at: nat, key: Path, raw: string, k: Path, val: string)
    requires Shifted(lines, out, at, key) && out[at].raw == raw
    requires forall i: nat :: IsSetting(lines, i) ==> FullKey(lines, i) != key
    ensures Binds(out, k, val) <==> if k == key then val == raw else Binds(lines, k, val)
  {
    hide PlaceAt, IsSetting, FullKey;
    if Binds(out, k, val) {
      var j: nat :| BindsAt(out, k, val, j);
      if j != at {
        var i: nat :| IsSetting(lines, i) && j == Shift(at, i);
        assert BindsAt(lines, k, val, i);
      }
    }
    if k == key && val == raw {
      assert BindsAt(out, k, val, at);
    }
    if k != key && Binds(lines, k, val) {
      var i: nat :| BindsAt(lines, k, val, i);
      assert BindsAt(out, k, val, Shift(at, i));
    }
  }

  lemma InsertedOnce(lines: seq<Line>, out: seq<Line>, at: nat, key: Path)
    requires Shifted(lines, out, at, key) && KeysOnce(lines)
    requires forall i: nat :: IsSetting(lines, i) ==> FullKey(lines, i) != key
    ensures KeysOnce(out)
  {
    hide PlaceAt, IsSetting, FullKey;
    forall i: nat, j: nat | IsSetting(out, i) && IsSetting(out, j) && FullKey(out, i) == FullKey(out, j) ensures i == j {
      if i != at {
        var i': nat :| IsSetting(lines, i') && i == Shift(at, i');
      }
      if j != at {
        var j': nat :| IsSetting(lines, j') && j == Shift(at, j');
      }
    }
  }

  // ---- The operation ----

  // What the scan knows of the place: the last header, and whether it opens an array.
  predicate Tracks(place: Place, table: Path, isArray: bool) {
    match place
    case Table(path, _) => !isArray && table == path
    case Array(_) => isArray
    case Block => isArray || TunnelPart(table)
  }

  lemma TrackNext(place: Place, table: Path, isArray: bool, line: Line)
    requires Tracks(place, table, isArray)
    ensures if line.Header? then Tracks(Next(place, line), line.name, line.isArray)
            else Tracks(Next(place, line), table, isArray)
  {
  }

  // The scan recognises the key exactly where the file gives it.
  lemma KeyRecognised(lines: seq<Line>, i: nat, table: Path, isArray: bool, key: Path)
    requires i < |lines| && lines[i].Entry? && Tracks(PlaceAt(lines, i), table, isArray)
    requires key != [] && !TunnelName(key[..1])
    ensures (!isArray && table + lines[i].key == key) <==> IsSetting(lines, i) && FullKey(lines, i) == key
  {
    assert table != [] ==> (table + lines[i].key)[..1] == table[..1];
  }

  lemma {:induction false} RootBefore(lines: seq<Line>, q: nat)
    requires q <= |lines| && forall j :: 0 <= j < q ==> !lines[j].Header?
    ensures PlaceAt(lines, q) == ROOT
  {
    if q > 0 {
      RootBefore(lines, q - 1);
    }
  }

  /** Going up from `q0` over the comments, then over the blank lines, as far as they go. */
  ghost predicate Above(lines: seq<Line>, q0: nat, mid: nat, q: nat) {
    && q <= mid <= q0 <= |lines|
    && (forall j :: q <= j < mid ==> lines[j].Blank?) && (forall j :: mid <= j < q0 ==> lines[j].Note?)
    && (q > 0 ==> !lines[q - 1].Blank?) && (mid > 0 ==> !lines[mid - 1].Note?)
  }

  method InFront(lines: seq<Line>, q0: nat) returns (q: nat)
    requires q0 <= |lines|
    ensures exists mid :: Above(lines, q0, mid, q)
  {
    q := q0;
    while q > 0 && lines[q - 1].Note?
      invariant q <= q0 && forall j :: q <= j < q0 ==> lines[j].Note?
    {
      q := q - 1;
    }
    ghost var mid := q;
    while q > 0 && lines[q - 1].Blank?
      invariant q <= mid && forall j :: q <= j < mid ==> lines[j].Blank?
    {
      q := q - 1;
    }
    assert Above(lines, q0, mid, q);
  }

  // ---- Where the line is written ----

  ghost predicate FirstHeader(lines: seq<Line>, table: Path, h: nat) {
    h < |lines| && lines[h] == Header(table, false) && forall j :: 0 <= j < h ==> lines[j] != Header(table, false)
  }

  ghost predicate FirstOfAll(lines: seq<Line>, h: nat) {
    h < |lines| && lines[h].Header? && forall j :: 0 <= j < h ==> !lines[j].Header?
  }

  /** Where a key without a table of its own goes: in front of the first header and of the comments and blank
      lines above it, or at the end of a file without headers, in front of an empty last line. */
  ghost predicate TopPlace(lines: seq<Line>, at: nat) {
    || (exists h, mid :: FirstOfAll(lines, h) && Above(lines, h, mid, at))
    || ((forall j :: 0 <= j < |lines| ==> !lines[j].Header?)
        && at == if lines != [] && lines[|lines| - 1] == Blank("") then |lines| - 1 else |lines|)
  }

  ghost predicate HasTable(lines: seq<Line>, table: Path) {
    table != [] && exists h :: FirstHeader(lines, table, h)
  }

  ghost predicate Under(lines: seq<Line>, out: seq<Line>, table: Path, x: Line) {
    exists h :: FirstHeader(lines, table, h) && out == lines[..h + 1] + [x] + lines[h + 1..]
  }

  /** One line is all that changes: that of the key, or one added just below the first header of its table,
      or, without such a header, at the top place under its whole name. */
  ghost predicate OneLine(lines: seq<Line>, out: seq<Line>, key: Path, raw: string)
    requires key != []
  {
    if exists m: nat :: IsSetting(lines, m) && FullKey(lines, m) == key then
      exists m: nat :: IsSetting(lines, m) && FullKey(lines, m) == key && out == lines[m := Entry(lines[m].key, raw, "")]
    else if HasTable(lines, key[..|key| - 1]) then
      Under(lines, out, key[..|key| - 1], Entry([key[|key| - 1]], raw, ""))
    else exists at: nat :: TopPlace(lines, at) && at <= |lines| && out == lines[..at] + [Entry(key, raw, "")] + lines[at..]
  }

  lemma LineReplaced(lines: seq<Line>, key: Path, raw: string, m: nat)
    requires key != [] && IsSetting(lines, m) && FullKey(lines, m) == key
    ensures OneLine(lines, lines[m := Entry(lines[m].key, raw, "")], key, raw)
  {
  }

  lemma LineUnder(lines: seq<Line>, key: Path, raw: string, h: nat)
    requires key != [] && |key| > 1 && forall m: nat :: IsSetting(lines, m) ==> FullKey(lines, m) != key
    requires FirstHeader(lines, key[..|key| - 1], h)
    ensures OneLine(lines, Insert(lines, h + 1, Entry(key[|key| - 1..], raw, "")), key, raw)
  {
    assert key[|key| - 1..] == [key[|key| - 1]];
  }

  lemma LineOnTop(lines: seq<Line>, key: Path, raw: string, at: nat)
    requires key != [] && forall m: nat :: IsSetting(lines, m) ==> FullKey(lines, m) != key
    requires |key| > 1 ==> forall j :: 0 <= j < |lines| ==> lines[j] != Header(key[..|key| - 1], false)
    requires at <= |lines| && TopPlace(lines, at)
    ensures OneLine(lines, Insert(lines, at, Entry(key, raw, "")), key, raw)
  {
    hide TopPlace;
  }

  /** Gives `key` the value `raw`: on its own line, or else under its table if there is one, or else
      as a dotted key in front of the first table. */
  method SetTomlKey(lines: seq<Line>, key: Path, raw: string) returns (out: seq<Line>)
    requires KeysOnce(lines) && key != [] && !TunnelName(key[..1])
    ensures KeySet(lines, out, key, raw)
    ensures OneLine(lines, out, key, raw)
  {
    hide PlaceAt, KeySet, KeysOnce, FullKey, Tracks, Next, OneLine, TopPlace;
    var keyTable, keyName := key[..|key| - 1], key[|key| - 1..];
    var table: Path, isArray, found := [], false, false;
    var headerAt, firstTable := -1, -1;
    ghost var m: nat := 0;
    out := lines;
    assert Tracks(PlaceAt(lines, 0), [], false) by { RootBefore(lines, 0); StartTracks(); }
    for i := 0 to |lines|
      invariant Tracks(PlaceAt(lines, i), table, isArray)
      invariant found ==> IsSetting(lines, m) && FullKey(lines, m) == key && out == lines[m := Entry(lines[m].key, raw, "")]
      invariant !found ==> out == lines && forall j: nat :: j < i && IsSetting(lines, j) ==> FullKey(lines, j) != key
      invariant headerAt >= 0 ==> headerAt < i && keyTable != [] && FirstHeader(lines, keyTable, headerAt)
      invariant headerAt < 0 && keyTable != [] ==> forall j :: 0 <= j < i ==> lines[j] != Header(keyTable, false)
      invariant firstTable < i && (firstTable >= 0 ==> lines[firstTable].Header?)
      invariant forall j :: 0 <= j < (if firstTable >= 0 then firstTable else i) ==> !lines[j].Header?
    {
      TrackNext(PlaceAt(lines, i), table, isArray, lines[i]);
      PlaceNext(lines, i);
      match lines[i]
      case Header(name, arr) =>
        table, isArray := name, arr;
        firstTable := if firstTable < 0 then i else firstTable;
        if !arr && keyTable != [] && name == keyTable && headerAt < 0 {
          headerAt := i;
        }
      case Entry(k, _, _) =>
        KeyRecognised(lines, i, table, isArray, key);
        if !isArray && table + k == key {
          SameSetting(lines, m, i, key, found);
          out := out[i := Entry(k, raw, "")];
          found, m := true, i;
        }
      case _ =>
    }
    if found {
      Replaced(lines, m, key, raw);
      LineReplaced(lines, key, raw, m);
    } else if headerAt >= 0 {
      UnderHeader(lines, headerAt, key);
      out := Insert(lines, headerAt + 1, Entry(keyName, raw, ""));
      Inserted(lines, headerAt + 1, keyName, key, raw);
      LineUnder(lines, key, raw, headerAt);
    } else {
      var at: nat := |lines|;
      if firstTable >= 0 {
        at := InFront(lines, firstTable);
      } else if at > 0 && lines[at - 1] == Blank("") {
        at := at - 1;
      }
      assert TopPlace(lines, at) by { TopIs(lines, firstTable, at); }
      RootBefore(lines, at);
      assert [] + key == key;
      out := Insert(lines, at, Entry(key, raw, ""));
      Inserted(lines, at, key, key, raw);
      LineOnTop(lines, key, raw, at);
    }
  }

  lemma TopIs(lines: seq<Line>, firstTable: int, at: nat)
    requires firstTable < |lines| && forall j :: 0 <= j < (if firstTable >= 0 then firstTable else |lines|) ==> !lines[j].Header?
    requires firstTable >= 0 ==> lines[firstTable].Header? && exists mid :: Above(lines, firstTable, mid, at)
    requires firstTable < 0 ==> at == if lines != [] && lines[|lines| - 1] == Blank("") then |lines| - 1 else |lines|
    ensures TopPlace(lines, at)
  {
    if firstTable >= 0 {
      var h: nat := firstTable;
      assert FirstOfAll(lines, h);
    }
  }

  lemma StartTracks()
    ensures Tracks(ROOT, [], false)
  {
  }

  lemma PlaceNext(lines: seq<Line>, i: nat)
    requires i < |lines|
    ensures PlaceAt(lines, i + 1) == Next(PlaceAt(lines, i), lines[i])
  {
  }

  lemma SameSetting(lines: seq<Line>, m: nat, i: nat, key: Path, found: bool)
    requires KeysOnce(lines) && IsSetting(lines, i) && FullKey(lines, i) == key
    requires found ==> IsSetting(lines, m) && FullKey(lines, m) == key
    ensures found ==> m == i
  {
    hide PlaceAt;
  }

  lemma UnderHeader(lines: seq<Line>, at: nat, key: Path)
    requires key != [] && !TunnelName(key[..1])
    requires at < |lines| && lines[at] == Header(key[..|key| - 1], false) && |key| > 1
    ensures PlaceAt(lines, at + 1).Table? && PlaceAt(lines, at + 1).path == key[..|key| - 1]
    ensures key[..|key| - 1] + key[|key| - 1..] == key
  {
    assert key[..|key| - 1][..1] == key[..1];
  }
}
