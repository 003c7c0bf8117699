/** Merging a generated configuration into a hand-written file: only the touched keys change. */
module Merge {
  import opened Wrappers
  import opened InlineTables
  import opened TomlStrings
  import opened InlineText
  import opened InlineLayout
  import opened InlineRefines
  import opened InlineValues
  import opened TomlLines
  import opened MergePlan
  import opened MergeCounts
  import opened MergeScan
  import opened MergeEdits
  import opened MergeAdds
  import opened MergePlaces
  import opened MergeMeaning

  /** The merged file, or the keys that cannot be written. */
  datatype Outcome = Merged(lines: seq<Line>) | Refused(keys: seq<Path>)

  // ---- The generated configuration ----

  /** A line of the generated text: a section header, a setting, or anything else. */
  datatype GenLine = Section(name: Path) | Assign(key: Path, raw: string) | Other

  function SectionAt(gen: seq<GenLine>, i: nat): Path
    requires i <= |gen|
  {
    if i == 0 then [] else if gen[i - 1].Section? then gen[i - 1].name else SectionAt(gen, i - 1)
  }

  predicate Generates(gen: seq<GenLine>, i: nat, k: Path) {
    i < |gen| && gen[i].Assign? && SectionAt(gen, i) + gen[i].key == k
  }

  /** `i` is the last line that generates `k`. */
  ghost predicate LastOf(gen: seq<GenLine>, n: nat, i: nat, k: Path) {
    i < n && Generates(gen, i, k) && forall j: nat :: i < j < n ==> !Generates(gen, j, k)
  }

  ghost predicate Distinct(keys: seq<Path>) {
    forall i, j :: 0 <= i < j < |keys| ==> keys[i] != keys[j]
  }

  /** The settings generated by the first lines: keys in order of first appearance, last value. */
  ghost predicate Collected(gen: seq<GenLine>, n: nat, order: seq<Path>, want: map<Path, string>) {
    && Distinct(order) && (forall k :: k in order <==> k in want)
    && (forall i: nat :: i < n <= |gen| && gen[i].Assign? ==> SectionAt(gen, i) + gen[i].key in want)
    && forall k :: k in want ==> exists i: nat :: i < |gen| && LastOf(gen, n, i, k) && want[k] == gen[i].raw
  }

  method GeneratedRaws(gen: seq<GenLine>) returns (order: seq<Path>, want: map<Path, string>)
    ensures Collected(gen, |gen|, order, want)
  {
    order, want := [], map[];
    var section: Path := [];
    for n := 0 to |gen|
      invariant section == SectionAt(gen, n)
      invariant Collected(gen, n, order, want)
    {
      CollectNext(gen, n, order, want);
      match gen[n]
      case Section(name) => section := name;
      case Assign(key, raw) =>
        if section + key !in want {
          order := order + [section + key];
        }
        want := want[section + key := raw];
      case Other =>
    }
  }

  lemma OneDistinct(k: Path)
    ensures Distinct([k])
  {
  }

  lemma CollectNext(gen: seq<GenLine>, n: nat, order: seq<Path>, want: map<Path, string>)
    requires n < |gen| && Collected(gen, n, order, want)
    ensures if gen[n].Assign? then
              var k := SectionAt(gen, n) + gen[n].key;
              Collected(gen, n + 1, if k in want then order else order + [k], want[k := gen[n].raw])
            else Collected(gen, n + 1, order, want)
  {
    hide SectionAt, Distinct;
    if gen[n].Assign? {
      var k := SectionAt(gen, n) + gen[n].key;
      var want' := want[k := gen[n].raw];
      OneDistinct(k);
      DistinctJoin(order, [k]);
      assert LastOf(gen, n + 1, n, k);
      forall c | c in want' ensures exists i: nat :: i < |gen| && LastOf(gen, n + 1, i, c) && want'[c] == gen[i].raw {
        if c != k {
          var i: nat :| i < |gen| && LastOf(gen, n, i, c) && want[c] == gen[i].raw;
          assert LastOf(gen, n + 1, i, c);
        }
      }
    } else {
      forall c | c in want ensures exists i: nat :: i < |gen| && LastOf(gen, n + 1, i, c) && want[c] == gen[i].raw {
        var i: nat :| i < |gen| && LastOf(gen, n, i, c) && want[c] == gen[i].raw;
        assert LastOf(gen, n + 1, i, c);
      }
    }
  }

  // ---- The keys merged ----

  function KeepIn(s: seq<Path>, t: seq<Path>): seq<Path> {
    if s == [] then [] else (if s[0] in t then [s[0]] else []) + KeepIn(s[1..], t)
  }

  /** The keys of `s` that are not in `t`, each one once. */
  function KeepOut(s: seq<Path>, t: seq<Path>): seq<Path> {
    if s == [] then [] else
      (if s[0] !in t then [s[0]] else []) + KeepOut(s[1..], if s[0] !in t then t + [s[0]] else t)
  }

  lemma DistinctJoin(a: seq<Path>, b: seq<Path>)
    ensures Distinct(a) && Distinct(b) && (forall k :: k in a ==> k !in b) ==> Distinct(a + b)
  {
    if Distinct(a) && Distinct(b) && forall k :: k in a ==> k !in b {
      forall i, j | 0 <= i < j < |a + b| ensures (a + b)[i] != (a + b)[j] {
        assert i < |a| ==> a[i] in a;
        assert j >= |a| ==> b[j - |a|] in b;
      }
    }
  }

  lemma {:induction false} KeepInHolds(s: seq<Path>, t: seq<Path>)
    ensures forall k :: k in KeepIn(s, t) <==> k in s && k in t
    ensures Distinct(s) ==> Distinct(KeepIn(s, t))
  {
    if s != [] {
      KeepInHolds(s[1..], t);
      assert forall k :: k in s <==> k == s[0] || k in s[1..];
      assert Distinct(s) ==> s[0] !in s[1..] && Distinct(s[1..]);
      DistinctJoin([s[0]], KeepIn(s[1..], t));
    }
  }

  lemma {:induction false} KeepOutHolds(s: seq<Path>, t: seq<Path>)
    ensures forall k :: k in KeepOut(s, t) <==> k in s && k !in t
    ensures Distinct(KeepOut(s, t))
  {
    if s != [] {
      var t' := if s[0] !in t then t + [s[0]] else t;
      KeepOutHolds(s[1..], t');
      DistinctJoin([s[0]], KeepOut(s[1..], t'));
      assert forall k :: k in s <==> k == s[0] || k in s[1..];
    }
  }

  /** Generated keys first, in their order, then the keys to remove. */
  function MergedKeys(order: seq<Path>, touched: seq<Path>): seq<Path> {
    KeepIn(order, touched) + KeepOut(touched, order)
  }

  lemma MergedKeysHold(order: seq<Path>, touched: seq<Path>)
    requires Distinct(order)
    ensures Distinct(MergedKeys(order, touched))
    ensures forall k :: k in MergedKeys(order, touched) <==> k in touched
  {
    KeepInHolds(order, touched);
    KeepOutHolds(touched, order);
    DistinctJoin(KeepIn(order, touched), KeepOut(touched, order));
  }

  // ---- Tables emptied by the merge ----

  /** First header behind `at`, or the end of the file. */
  method NextHead(lines: seq<Line>, sc: Scan, at: nat) returns (stop: nat)
    requires Scanned(lines, sc) && at < |lines|
    ensures at < stop <= |lines| && (stop < |lines| ==> lines[stop].Header?)
    ensures forall j :: at < j < stop ==> !lines[j].Header?
  {
    hide FirstTunnel, HeadOf, SettingOf;
    stop := |lines|;
    for i := 0 to |sc.heads|
      invariant at < stop <= |lines| && (stop < |lines| ==> lines[stop].Header?)
      invariant forall k :: 0 <= k < i && sc.heads[k] > at ==> sc.heads[k] >= stop
    {
      assert sc.heads[i] in sc.heads;
      if at < sc.heads[i] < stop {
        stop := sc.heads[i];
      }
    }
    forall j | at < j < stop ensures !lines[j].Header? {
      assert j !in sc.heads;
    }
  }

  /** The table headed at `x`, up to `stop`, held settings, and all of them leave; nothing is added to
      it, and only blank lines stand beside them. */
  ghost predicate EmptiedTo(lines: seq<Line>, before: map<nat, seq<Line>>, drop: set<nat>, x: nat, stop: nat) {
    && x < |lines| && lines[x].Header? && !lines[x].isArray && PlaceAt(lines, x + 1).Table?
    && DeadTo(lines, Plan(before, drop, map[]), x, stop)
    && exists j: nat :: x < j < stop && IsSetting(lines, j)
  }

  ghost predicate Emptied(lines: seq<Line>, before: map<nat, seq<Line>>, drop: set<nat>, x: nat) {
    exists stop: nat :: EmptiedTo(lines, before, drop, x, stop)
  }

  /** A blank line of an emptied table, or in front of one that ends the file. */
  ghost predicate BlankOf(lines: seq<Line>, before: map<nat, seq<Line>>, drop: set<nat>, j: nat) {
    exists x: nat, stop: nat :: EmptiedTo(lines, before, drop, x, stop) && (x < j < stop || (j + 1 == x && stop == |lines|))
  }

  /** A line may leave: a setting that leaves, or the header or a blank line of an emptied table. */
  ghost predicate MayGo(lines: seq<Line>, before: map<nat, seq<Line>>, drop: set<nat>, j: nat) {
    && j < |lines|
    && match lines[j]
       case Header(_, _) => Emptied(lines, before, drop, j)
       case Blank(_) => BlankOf(lines, before, drop, j)
       case Entry(_, _, _) => IsSetting(lines, j) && j in drop
       case Note(_) => false
  }

  /** The positions from `a` to `b`, without `b`. */
  function Span(a: nat, b: nat): (s: set<nat>)
    ensures forall j: nat :: j in s <==> a <= j < b
    decreases b - a
  {
    if a >= b then {} else {a} + Span(a + 1, b)
  }

  /** Headers of tables emptied by the merge leave, and no others; with them only blank lines of theirs. */
  method DropEmptied(lines: seq<Line>, sc: Scan, before: map<nat, seq<Line>>, drop0: set<nat>) returns (drop: set<nat>)
    requires Scanned(lines, sc) && forall j :: j in drop0 ==> IsSetting(lines, j)
    ensures drop0 <= drop && forall j :: j in drop ==> MayGo(lines, before, drop0, j)
    ensures forall x: nat :: Emptied(lines, before, drop0, x) ==> x in drop
  {
    hide FirstTunnel, PlaceAt, HeadOf, Scanned, Emptied, EmptiedTo, MayGo, IsSetting;
    drop := drop0;
    var n := |lines|;
    StartDrop(lines, before, drop0);
    AllHeads(lines, sc);
    for i := 0 to |sc.headers|
      invariant drop0 <= drop && forall j :: j in drop ==> MayGo(lines, before, drop0, j)
      invariant forall k :: 0 <= k < i && Emptied(lines, before, drop0, sc.headers[k].at) ==> sc.headers[k].at in drop
    {
      var h := sc.headers[i];
      HeadIsLine(lines, sc, h);
      var stop := NextHead(lines, sc, h.at);
      var had := exists e :: e in sc.settings && h.at < e.at < stop;
      var empty := forall j: nat | h.at < j < stop :: j in drop || lines[j].Blank?;
      var fed := exists j: nat | h.at < j <= stop :: j in before;
      WhenEmptied(lines, sc, before, drop0, drop, h, stop);
      if had && empty && !fed && !h.isArray {
        NotStray(lines, sc, before, drop0, drop, h, stop);
        IsEmptied(lines, sc, before, drop0, drop, h, stop);
        var gapBefore := h.at > 0 && lines[h.at - 1].Blank?;
        var lastBlank: nat := stop;
        while lastBlank > h.at && (lastBlank == stop || lastBlank in drop)
          invariant h.at <= lastBlank <= stop
        {
          lastBlank := lastBlank - 1;
        }
        RegionMayGo(lines, before, drop0, drop, h, stop);
        drop := drop + Span(h.at, stop);
        if stop == n {
          if lines[n - 1] == Blank("") {
            BlankStays(lines, drop0, n - 1);
            drop := drop - {n - 1};
          }
          if gapBefore {
            GapMayGo(lines, before, drop0, h.at, stop);
            drop := drop + {h.at - 1};
          }
        } else if !gapBefore && lastBlank > h.at && lines[lastBlank].Blank? {
          BlankStays(lines, drop0, lastBlank);
          drop := drop - {lastBlank};
        }
      }
    }
    forall x: nat | Emptied(lines, before, drop0, x) ensures x in drop {
      HeadListed(lines, sc, before, drop0, x);
    }
  }

  lemma AllHeads(lines: seq<Line>, sc: Scan)
    requires Scanned(lines, sc)
    ensures forall k :: 0 <= k < |sc.headers| ==> sc.headers[k].at < |lines| && lines[sc.headers[k].at].Header?
  {
    hide Scanned;
    forall k | 0 <= k < |sc.headers| ensures sc.headers[k].at < |lines| && lines[sc.headers[k].at].Header? {
      HeadIsLine(lines, sc, sc.headers[k]);
    }
  }

  lemma StartDrop(lines: seq<Line>, before: map<nat, seq<Line>>, drop: set<nat>)
    requires forall j :: j in drop ==> IsSetting(lines, j)
    ensures forall j :: j in drop ==> MayGo(lines, before, drop, j)
  {
    hide PlaceAt;
  }

  lemma BlankStays(lines: seq<Line>, drop: set<nat>, j: nat)
    requires j < |lines| && lines[j].Blank? && forall i :: i in drop ==> IsSetting(lines, i)
    ensures j !in drop
  {
    hide PlaceAt;
  }

  lemma HeadListed(lines: seq<Line>, sc: Scan, before: map<nat, seq<Line>>, drop: set<nat>, x: nat)
    requires Scanned(lines, sc) && Emptied(lines, before, drop, x)
    ensures exists k :: 0 <= k < |sc.headers| && sc.headers[k].at == x
  {
    hide PlaceAt, FirstTunnel, HasDetached, DeadTo, IsSetting;
    var h := Head(x, lines[x].name, false);
    assert HeadOf(lines, h) && h in sc.headers;
  }

  // A table that is emptied meets the conditions of the loop.
  lemma WhenEmptied(lines: seq<Line>, sc: Scan, before: map<nat, seq<Line>>, drop0: set<nat>, drop: set<nat>, h: Head, stop: nat)
    requires Scanned(lines, sc) && h in sc.headers && h.at < stop <= |lines| && (stop < |lines| ==> lines[stop].Header?)
    requires lines[h.at] == Header(h.name, h.isArray)
    requires forall j :: h.at < j < stop ==> !lines[j].Header?
    requires drop0 <= drop
    ensures Emptied(lines, before, drop0, h.at) ==>
              && !h.isArray && (exists e :: e in sc.settings && h.at < e.at < stop)
              && (forall j: nat :: h.at < j < stop ==> j in drop || lines[j].Blank?)
              && forall j: nat :: h.at < j <= stop ==> j !in before
  {
    hide PlaceAt, FirstTunnel, HasDetached, HeadOf, StrayHead, StraySetting;
    if Emptied(lines, before, drop0, h.at) {
      var stop': nat :| EmptiedTo(lines, before, drop0, h.at, stop');
      StopsThere(lines, before, drop0, h.at, stop', stop);
      var j: nat :| h.at < j < stop && IsSetting(lines, j);
      var e := Setting(j, FullKey(lines, j), PlaceAt(lines, j).path);
      assert SettingOf(lines, e) && e in sc.settings;
    }
  }

  lemma StopsThere(lines: seq<Line>, before: map<nat, seq<Line>>, drop: set<nat>, x: nat, stop': nat, stop: nat)
    requires EmptiedTo(lines, before, drop, x, stop') && x < stop <= |lines| && (stop < |lines| ==> lines[stop].Header?)
    requires forall j :: x < j < stop ==> !lines[j].Header?
    ensures stop' == stop
  {
    hide PlaceAt;
    assert forall j: nat :: x < j < stop' ==> !lines[j].Header?;
  }

  lemma IsEmptied(lines: seq<Line>, sc: Scan, before: map<nat, seq<Line>>, drop0: set<nat>, drop: set<nat>, h: Head, stop: nat)
    requires Scanned(lines, sc) && HeadOf(lines, h) && !h.isArray && h.at < stop <= |lines| && (stop < |lines| ==> lines[stop].Header?)
    requires exists e :: e in sc.settings && h.at < e.at < stop
    requires forall j :: h.at < j < stop ==> !lines[j].Header?
    requires forall j: nat :: h.at < j < stop ==> j in drop || lines[j].Blank?
    requires forall j: nat :: h.at < j <= stop ==> j !in before
    requires forall j :: j in drop ==> MayGo(lines, before, drop0, j)
    ensures EmptiedTo(lines, before, drop0, h.at, stop)
  {
    hide PlaceAt, Emptied, BlankOf, FirstTunnel, HasDetached;
    forall j: nat | h.at < j < stop ensures lines[j].Blank? || (IsSetting(lines, j) && j in drop0) {
      assert j in drop ==> MayGo(lines, before, drop0, j);
    }
    assert DeadTo(lines, Plan(before, drop0, map[]), h.at, stop);
    var e :| e in sc.settings && h.at < e.at < stop;
    assert lines[e.at].Entry?;
    HeadIsTable(lines, h);
  }

  lemma HeadIsTable(lines: seq<Line>, h: Head)
    requires HeadOf(lines, h) && !h.isArray
    ensures PlaceAt(lines, h.at + 1).Table?
  {
  }

  lemma RegionMayGo(lines: seq<Line>, before: map<nat, seq<Line>>, drop0: set<nat>, drop: set<nat>, h: Head, stop: nat)
    requires EmptiedTo(lines, before, drop0, h.at, stop)
    ensures Emptied(lines, before, drop0, h.at)
    ensures forall j: nat :: h.at <= j < stop ==> MayGo(lines, before, drop0, j)
  {
    hide PlaceAt;
    forall j: nat | h.at <= j < stop ensures MayGo(lines, before, drop0, j) {
      if j > h.at {
        assert lines[j].Blank? || (IsSetting(lines, j) && j in drop0);
      }
    }
  }

  lemma GapMayGo(lines: seq<Line>, before: map<nat, seq<Line>>, drop0: set<nat>, x: nat, stop: nat)
    requires EmptiedTo(lines, before, drop0, x, stop) && stop == |lines| && 0 < x < |lines| && lines[x - 1].Blank?
    ensures MayGo(lines, before, drop0, x - 1)
  {
    hide EmptiedTo;
    var j: nat := x - 1;
    assert EmptiedTo(lines, before, drop0, x, stop) && j + 1 == x;
    assert BlankOf(lines, before, drop0, j);
  }

  lemma HeadIsLine(lines: seq<Line>, sc: Scan, h: Head)
    requires Scanned(lines, sc) && h in sc.headers
    ensures h.at < |lines| && lines[h.at] == Header(h.name, h.isArray)
  {
    hide PlaceAt, HasDetached;
  }

  // Without a header between them, two lines stand in the same table.
  lemma {:induction false} SameTableUpTo(lines: seq<Line>, a: nat, b: nat)
    requires a <= b <= |lines| && forall j :: a <= j < b ==> !lines[j].Header?
    ensures PlaceAt(lines, b) == PlaceAt(lines, a)
    decreases b
  {
    if a < b {
      SameTableUpTo(lines, a, b - 1);
    }
  }

  // A table emptied by the merge is no sub-table of a tunnel: nothing of a tunnel leaves.
  lemma NotStray(lines: seq<Line>, sc: Scan, before: map<nat, seq<Line>>, drop0: set<nat>, drop: set<nat>, h: Head, stop: nat)
    requires Scanned(lines, sc) && h in sc.headers && h.at < stop <= |lines|
    requires exists e :: e in sc.settings && h.at < e.at < stop
    requires forall j :: h.at < j < stop ==> !lines[j].Header?
    requires forall j: nat :: h.at < j < stop ==> j in drop || lines[j].Blank?
    requires forall j :: j in drop ==> MayGo(lines, before, drop0, j)
    ensures HeadOf(lines, h)
  {
    hide FirstTunnel, PlaceAt, HasDetached, DeadTo;
    var e :| e in sc.settings && h.at < e.at < stop;
    assert lines[e.at].Entry?;
    assert MayGo(lines, before, drop0, e.at);
    assert PlaceAt(lines, e.at).Table?;
    SameTableUpTo(lines, h.at + 1, e.at);
  }

  // ---- Writing the result ----

  /** The lines added in front of each line, then the line as it is kept. */
  method Output(lines: seq<Line>, plan: Plan) returns (out: seq<Line>)
    ensures out == OutFrom(lines, plan, 0)
  {
    out := [];
    var i := 0;
    while i <= |lines|
      invariant 0 <= i <= |lines| + 1
      invariant out + OutFrom(lines, plan, i) == OutFrom(lines, plan, 0)
    {
      ghost var was := out;
      if i in plan.before {
        out := out + plan.before[i];
      }
      if i < |lines| && i !in plan.drop {
        out := out + [if i in plan.put then plan.put[i] else lines[i]];
      }
      assert out == was + Chunk(lines, plan, i);
      ChunkNext(lines, plan, i, was);
      i := i + 1;
    }
  }

  lemma ChunkNext(lines: seq<Line>, plan: Plan, i: nat, out: seq<Line>)
    requires i <= |lines|
    ensures out + Chunk(lines, plan, i) + OutFrom(lines, plan, i + 1) == out + OutFrom(lines, plan, i)
  {
    hide Chunk;
  }

  // ---- The whole merge ----

  /** The setting of that very key (a well-formed file gives it once), or else the one that leads to
      it (|settings|: none). */
  method Find(lines: seq<Line>, sc: Scan, k: Path) returns (i: nat)
    requires Scanned(lines, sc) && Apt(lines, k)
    ensures i < |sc.settings| ==> SettingOf(lines, sc.settings[i]) && sc.settings[i].key <= k
    ensures i >= |sc.settings| ==> !Located(lines, k)
  {
    hide PlaceAt, FirstTunnel, HeadOf, StrayHead, StraySetting, Apt;
    i := 0;
    while i < |sc.settings| && sc.settings[i].key != k
      invariant i <= |sc.settings|
      invariant forall j :: 0 <= j < i ==> sc.settings[j].key != k
    {
      i := i + 1;
    }
    if i == |sc.settings| {
      i := 0;
      while i < |sc.settings| && !Under(sc.settings[i].key, k)
        invariant i <= |sc.settings|
        invariant forall j :: 0 <= j < i ==> !(sc.settings[j].key < k)
      {
        i := i + 1;
      }
      if i == |sc.settings| {
        forall j: nat | IsSetting(lines, j) ensures !(FullKey(lines, j) <= k) {
          var e := Setting(j, FullKey(lines, j), PlaceAt(lines, j).path);
          assert SettingOf(lines, e) && e in sc.settings;
        }
      }
    }
    if i < |sc.settings| {
      AptSetting(lines, sc, sc.settings[i], k);
    }
  }

  /** Every new key done is among the added lines, and nothing else is. */
  ghost predicate AddsDone(lines: seq<Line>, want: map<Path, string>, done: set<Path>, adds: Adds) {
    && AddsOk(lines, adds)
    && (forall p, v :: AddsSay(lines, adds, p, v) <==> p in done && !Located(lines, p) && Wanted(want, p, v))
    && forall p :: AddsCount(lines, adds, p) <= if p in done && !Located(lines, p) then 1 else 0
  }

  function SetOf(keys: seq<Path>): set<Path> {
    set k | k in keys
  }

  /** One key: changed where it is, or added. */
  method MergeKey(lines: seq<Line>, sc: Scan, want: map<Path, string>, ghost touched: set<Path>, ghost done: set<Path>,
                  ed: Edits, adds: Adds, k: Path) returns (ed': Edits, adds': Adds)
    requires Scanned(lines, sc) && Merging(lines, want, touched, done, ed) && AddsDone(lines, want, done, adds)
    requires k in touched && k !in done
    ensures Merging(lines, want, touched, done + {k}, ed') && AddsDone(lines, want, done + {k}, adds')
  {
    hide PlaceAt, WellFormed, Scanned, EditsDone, AddsOk, AddsSay, Apt, ValueToken, IsInline, PlainPath;
    ed', adds' := ed, adds;
    assert Apt(lines, k) && PlainPath(k);
    var i := Find(lines, sc, k);
    if i < |sc.settings| {
      var e := sc.settings[i];
      if e.key == k {
        ed' := EditFound(lines, want, touched, done, ed, e.at, k);
      } else {
        ed' := EditHost(lines, want, touched, done, ed, e.at, k);
      }
      LocatedAdds(lines, want, done, adds, e.at, k);
    } else {
      NewStep(lines, want, touched, done, ed, k);
      if k in want {
        TokenIsPlain(want[k]);
        PathNotEmpty(k);
        adds' := AddKey(lines, sc, adds, k, want[k]);
        AddStep(lines, want, done, adds, adds', k);
      } else {
        NoAddStep(lines, want, done, adds, k);
      }
    }
  }

  lemma LocatedAdds(lines: seq<Line>, want: map<Path, string>, done: set<Path>, adds: Adds, i: nat, k: Path)
    requires AddsDone(lines, want, done, adds) && IsSetting(lines, i) && FullKey(lines, i) <= k
    ensures AddsDone(lines, want, done + {k}, adds)
  {
    hide PlaceAt, AddsSay, Wanted, AddsOk, AddsCount;
    assert Located(lines, k);
  }

  lemma NoAddStep(lines: seq<Line>, want: map<Path, string>, done: set<Path>, adds: Adds, k: Path)
    requires AddsDone(lines, want, done, adds) && k !in want
    ensures AddsDone(lines, want, done + {k}, adds)
  {
    hide PlaceAt, AddsSay, AddsOk, Located, AddsCount;
  }

  lemma AddStep(lines: seq<Line>, want: map<Path, string>, done: set<Path>, adds: Adds, adds': Adds, k: Path)
    requires AddsDone(lines, want, done, adds) && k in want && !Located(lines, k) && k !in done
    requires AddedOne(lines, adds, adds', k, want[k])
    ensures AddsDone(lines, want, done + {k}, adds')
  {
    hide PlaceAt, AddsSay, AddsOk, Located, Unquote, AddsCount;
    forall p, v ensures AddsSay(lines, adds', p, v) <==> p in done + {k} && !Located(lines, p) && Wanted(want, p, v) {
    }
  }

  // A key found nowhere touches no setting.
  lemma NewStep(lines: seq<Line>, want: map<Path, string>, touched: set<Path>, done: set<Path>, ed: Edits, k: Path)
    requires Merging(lines, want, touched, done, ed) && k in touched && !Located(lines, k)
    ensures Merging(lines, want, touched, done + {k}, ed)
  {
    hide PlaceAt, WellFormed, Mergeable, PlainValues, RefusedIn, SettingDone, IsInline;
    NewNotRefused(lines, k);
    forall j: nat | IsSetting(lines, j) ensures SettingDone(lines, want, touched, done + {k}, ed, j) {
      assert SettingDone(lines, want, touched, done, ed, j);
      OthersDone(lines, want, touched, done, ed, ed, k, j);
    }
  }

  ghost predicate Generated(gen: seq<GenLine>, k: Path) {
    exists i: nat :: Generates(gen, i, k)
  }

  /** The generated text gives `k` the value `v`. */
  ghost predicate Asks(gen: seq<GenLine>, k: Path, v: string) {
    exists i: nat :: i < |gen| && LastOf(gen, |gen|, i, k) && v == Unquote(gen[i].raw)
  }

  lemma WantedIsAsked(gen: seq<GenLine>, order: seq<Path>, want: map<Path, string>, p: Path, v: string)
    requires Collected(gen, |gen|, order, want)
    ensures Wanted(want, p, v) <==> Asks(gen, p, v)
    ensures p in want <==> Generated(gen, p)
  {
    hide Unquote, SectionAt, Distinct;
    if Asks(gen, p, v) || Generated(gen, p) {
      assert p in want;
    }
    if p in want {
      var i: nat :| i < |gen| && LastOf(gen, |gen|, i, p) && want[p] == gen[i].raw;
      assert forall j: nat :: j < |gen| && LastOf(gen, |gen|, j, p) ==> j == i;
    }
  }

  lemma OrderDistinct(gen: seq<GenLine>, order: seq<Path>, want: map<Path, string>)
    requires Collected(gen, |gen|, order, want)
    ensures Distinct(order)
  {
  }

  lemma StartEdits(lines: seq<Line>, want: map<Path, string>, touched: set<Path>)
    requires WellFormed(lines) && Mergeable(lines, touched) && PlainValues(want, touched)
    ensures Merging(lines, want, touched, {}, Edits({}, map[], map[], []))
  {
    hide PlaceAt, RawSays, Unquote, Mergeable, PlainValues, ValueOk, RawSpot;
    var ed := Edits({}, map[], map[], []);
    forall i: nat | IsSetting(lines, i) ensures SettingDone(lines, want, touched, {}, ed, i) {
      assert ValueOk(lines[i].raw);
    }
  }

  lemma StartAdds(lines: seq<Line>, want: map<Path, string>)
    ensures AddsDone(lines, want, {}, Adds(map[], [], [], -1))
  {
    hide PlaceAt, Unquote;
    forall p, v ensures !AddsSay(lines, Adds(map[], [], [], -1), p, v) {
      NoTables(ROOT, p, v);
    }
    forall p ensures AddsCount(lines, Adds(map[], [], [], -1), p) == 0 {
      NoneAdded(lines, 0, p);
    }
  }

  lemma NextKey(keys: seq<Path>, i: nat)
    requires Distinct(keys) && i < |keys|
    ensures SetOf(keys[..i + 1]) == SetOf(keys[..i]) + {keys[i]} && keys[i] !in SetOf(keys[..i])
  {
    assert keys[..i + 1] == keys[..i] + [keys[i]];
  }

  // The plan built from the edits and the added lines does what the plan laws ask.
  lemma FinalPlan(lines: seq<Line>, ed: Edits, before: map<nat, seq<Line>>, drop: set<nat>)
    requires EditsOk(lines, ed) && Placed(lines, before) && ed.drop <= drop
    requires forall j :: j in drop ==> MayGo(lines, before, ed.drop, j)
    requires forall x: nat :: Emptied(lines, before, ed.drop, x) ==> x in drop
    ensures PlanOk(lines, Plan(before, drop, ed.put))
    ensures forall j: nat :: IsSetting(lines, j) ==> (j in drop <==> j in ed.drop)
    ensures GoesRight(lines, Plan(before, drop, ed.put))
  {
    hide PlaceAt, Plain, TailTo, DeadTo, EmptiedTo, Emptied, BlankOf;
    var plan := Plan(before, drop, ed.put);
    forall j | j in drop ensures j < |lines| && (lines[j].Blank? || IsSetting(lines, j) || Dead(lines, plan, j)) {
      assert MayGo(lines, before, ed.drop, j);
      if Emptied(lines, before, ed.drop, j) {
        EmptiedIsDead(lines, before, ed.drop, drop, ed.put, j);
      }
    }
    forall q | q in before ensures AddOk(lines, plan, q) {
      assert AddOk(lines, Plan(before, {}, map[]), q);
      SameTail(lines, before, plan, q);
    }
    forall j: nat | IsSetting(lines, j) ensures j in drop <==> j in ed.drop {
      assert j in drop ==> MayGo(lines, before, ed.drop, j);
    }
    SameEmptied(lines, before, ed.drop, drop);
  }

  lemma EmptiedIsDead(lines: seq<Line>, before: map<nat, seq<Line>>, drop0: set<nat>, drop: set<nat>, put: map<nat, Line>, x: nat)
    requires Emptied(lines, before, drop0, x) && drop0 <= drop
    ensures Dead(lines, Plan(before, drop, put), x)
  {
    hide PlaceAt, IsSetting;
    var stop: nat :| EmptiedTo(lines, before, drop0, x, stop);
    assert DeadTo(lines, Plan(before, drop, put), x, stop);
  }

  /** Besides settings, the plan takes out exactly the headers of the tables it empties, and blank lines
      of theirs. */
  ghost predicate GoesRight(lines: seq<Line>, plan: Plan) {
    && (forall j :: j in plan.drop ==> MayGo(lines, plan.before, plan.drop, j))
    && forall x: nat :: Emptied(lines, plan.before, plan.drop, x) ==> x in plan.drop
  }

  // The same tables are emptied, whether the other lines that leave are counted in or not.
  lemma SameEmptied(lines: seq<Line>, before: map<nat, seq<Line>>, drop0: set<nat>, drop: set<nat>)
    requires forall j: nat :: IsSetting(lines, j) ==> (j in drop <==> j in drop0)
    requires forall j :: j in drop ==> MayGo(lines, before, drop0, j)
    requires forall x: nat :: Emptied(lines, before, drop0, x) ==> x in drop
    ensures forall j :: j in drop ==> MayGo(lines, before, drop, j)
    ensures forall x: nat :: Emptied(lines, before, drop, x) ==> x in drop
  {
    hide PlaceAt, EmptiedTo, IsSetting;
    forall x: nat, stop: nat ensures EmptiedTo(lines, before, drop, x, stop) <==> EmptiedTo(lines, before, drop0, x, stop) {
      SameEmptiedTo(lines, before, drop0, drop, x, stop);
    }
    forall j | j in drop ensures MayGo(lines, before, drop, j) {
      assert MayGo(lines, before, drop0, j);
    }
  }

  lemma SameEmptiedTo(lines: seq<Line>, before: map<nat, seq<Line>>, drop0: set<nat>, drop: set<nat>, x: nat, stop: nat)
    requires forall j: nat :: IsSetting(lines, j) ==> (j in drop <==> j in drop0)
    ensures EmptiedTo(lines, before, drop, x, stop) <==> EmptiedTo(lines, before, drop0, x, stop)
  {
    hide PlaceAt, IsSetting;
  }

  lemma SameTail(lines: seq<Line>, before: map<nat, seq<Line>>, plan: Plan, q: nat)
    requires plan.before == before
    ensures Tail(lines, Plan(before, {}, map[]), q) ==> Tail(lines, plan, q)
  {
    if limit: nat :| TailTo(lines, Plan(before, {}, map[]), q, limit) {
      assert TailTo(lines, plan, q, limit);
    }
  }

  // What the merged file says, key by key.
  lemma MergedSays(lines: seq<Line>, want: map<Path, string>, touched: set<Path>, ed: Edits, ed': Edits, adds: Adds,
                   plan: Plan, p: Path, v: string)
    requires Merging(lines, want, touched, touched, ed) && ed.refused == [] && AddsDone(lines, want, touched, adds)
    requires EditsOk(lines, ed') && PlanOk(lines, plan) && plan.put == ed'.put && ed'.inline == map[]
    requires forall j: nat :: IsSetting(lines, j) ==> (j in plan.drop <==> j in ed'.drop)
    requires BeforeSays(lines, plan.before, p, v) <==> AddsSay(lines, adds, p, v)
    requires forall i: nat :: IsSetting(lines, i) ==>
               (OptSays(FullKey(lines, i), CurRaw(lines, ed', i), p, v) <==> OptSays(FullKey(lines, i), CurRaw(lines, ed, i), p, v))
    ensures Bound(OutFrom(lines, plan, 0), p, v) <==> MergedHas(lines, want, touched, p, v)
  {
    hide PlaceAt, WellFormed, PlanOk, RawSays, AddsSay, Bound, OutFrom, SaysInFront, AddedSays, Wanted, MustSay, OptSays, MergedHas,
      PlainValues, SameSpots, RefusedIn, Located, LeadsTo, Apt, PlainPath;
    PlanSays(lines, plan, p, v);
    SameFront(lines, plan, p, v);
    forall j: nat | IsSetting(lines, j)
      ensures KeptSays(lines, plan, j, p, v) <==> MustSay(FullKey(lines, j), lines[j].raw, want, touched, p, v) {
      KeptIsCurrent(lines, plan, ed', j, p, v);
      assert SettingDone(lines, want, touched, touched, ed, j);
    }
    assert p in touched && p in want ==> !RefusedIn(lines, p);
    FileSays(lines, want, touched, p, v);
    SameSettings(lines, plan, want, touched, p, v);
  }

  lemma SameSettings(lines: seq<Line>, plan: Plan, want: map<Path, string>, touched: set<Path>, p: Path, v: string)
    requires PlanOk(lines, plan)
    requires forall j: nat :: IsSetting(lines, j) ==>
               (KeptSays(lines, plan, j, p, v) <==> MustSay(FullKey(lines, j), lines[j].raw, want, touched, p, v))
    ensures (exists j: nat :: KeptSays(lines, plan, j, p, v)) <==> SomeMustSay(lines, want, touched, p, v)
  {
    hide PlaceAt, PlanOk, RawSays, MustSay;
    if j: nat :| KeptSays(lines, plan, j, p, v) {
      assert IsSetting(lines, j);
    }
  }

  lemma SameFront(lines: seq<Line>, plan: Plan, p: Path, v: string)
    ensures (exists q: nat :: AddedSays(lines, plan, q, p, v)) <==> BeforeSays(lines, plan.before, p, v)
  {
    hide PlaceAt, Says;
    forall q: nat ensures AddedSays(lines, plan, q, p, v) <==> SaysInFront(lines, plan.before, q, p, v) {
    }
  }

  lemma KeptIsCurrent(lines: seq<Line>, plan: Plan, ed: Edits, j: nat, p: Path, v: string)
    requires PlanOk(lines, plan) && EditsOk(lines, ed) && plan.put == ed.put && ed.inline == map[]
    requires IsSetting(lines, j) && (j in plan.drop <==> j in ed.drop)
    ensures KeptSays(lines, plan, j, p, v) <==> OptSays(FullKey(lines, j), CurRaw(lines, ed, j), p, v)
  {
    hide PlaceAt, RawSays, PlanOk;
  }

  /** Every key in turn. */
  method MergeKeys(lines: seq<Line>, sc: Scan, want: map<Path, string>, keys: seq<Path>, ghost touched: set<Path>)
    returns (ed: Edits, adds: Adds)
    requires WellFormed(lines) && Mergeable(lines, touched) && PlainValues(want, touched) && Scanned(lines, sc)
    requires Distinct(keys) && forall k :: k in keys <==> k in touched
    ensures Merging(lines, want, touched, touched, ed) && AddsDone(lines, want, touched, adds)
  {
    hide PlaceAt, WellFormed, Mergeable, PlainValues, Merging, AddsDone, Scanned, Distinct;
    ed, adds := Edits({}, map[], map[], []), Adds(map[], [], [], -1);
    StartEdits(lines, want, touched);
    StartAdds(lines, want);
    assert SetOf(keys[..0]) == {};
    for i := 0 to |keys|
      invariant Merging(lines, want, touched, SetOf(keys[..i]), ed)
      invariant AddsDone(lines, want, SetOf(keys[..i]), adds)
    {
      NextKey(keys, i);
      ed, adds := MergeKey(lines, sc, want, touched, SetOf(keys[..i]), ed, adds, keys[i]);
    }
    assert keys[..|keys|] == keys && SetOf(keys) == touched;
  }

  // ---- Settings that stay where they are ----

  /** A setting of the original and the same one of the result: the end comment stays, and so does every
      raw value inside it apart from the keys. */
  ghost predicate StaysAround(f: Fact, g: Fact, keys: set<Path>)
    requires f.Bind? && g.Bind?
  {
    g.eol == f.eol && forall q :: f.key <= q && Aside(q, keys) ==> RawSpot(f.key, g.raw, q) == RawSpot(f.key, f.raw, q)
  }

  ghost predicate SameSetting(lines: seq<Line>, out: seq<Line>, f: Fact, g: Fact) {
    f in Reads(ROOT, lines) && g in Reads(ROOT, out) && f.Bind? && g.Bind? && f.key == g.key
  }

  /** There is nothing to do for the keys that the setting leads to. */
  ghost predicate NothingFor(want: map<Path, string>, keys: set<Path>, f: Fact)
    requires f.Bind?
  {
    forall k :: k in keys && f.key <= k ==> NoChange(f.key, f.raw, want, k)
  }

  ghost predicate EmptyTable(raw: string) {
    IsInline(raw) && TabOf(raw) == Nil
  }

  /** The edits carried out by the plan, once the inline tables are written back. */
  ghost predicate CarriedOut(lines: seq<Line>, ed: Edits, ed': Edits, adds: Adds, plan: Plan)
    requires EditsOk(lines, ed) && EditsOk(lines, ed')
  {
    && plan.put == ed'.put && ed'.inline == map[]
    && (forall j: nat :: IsSetting(lines, j) ==> (j in plan.drop <==> j in ed'.drop))
    && (forall i: nat :: IsSetting(lines, i) ==>
          CurRaw(lines, ed', i) == if i in ed.inline && InlineEmpty(ed.inline[i], 0) then None else CurRaw(lines, ed, i))
    && forall k :: AddedCount(lines, plan.before, 0, k) == AddsCount(lines, adds, k)
  }

  lemma IsCarried(lines: seq<Line>, ed: Edits, ed': Edits, adds: Adds, plan: Plan)
    requires EditsOk(lines, ed) && EditsOk(lines, ed') && plan.put == ed'.put && ed'.inline == map[]
    requires forall j: nat :: IsSetting(lines, j) ==> (j in plan.drop <==> j in ed'.drop)
    requires forall i: nat :: IsSetting(lines, i) ==>
               CurRaw(lines, ed', i) == if i in ed.inline && InlineEmpty(ed.inline[i], 0) then None else CurRaw(lines, ed, i)
    requires forall k :: AddedCount(lines, plan.before, 0, k) == AddsCount(lines, adds, k)
    ensures CarriedOut(lines, ed, ed', adds, plan)
  {
    hide PlaceAt, AddedCount, AddsCount, InlineEmpty;
  }

  /** The result is the original, line by line in order, but for settings that lead to the keys (taken
      out, or given another value under the same key and end comment), headers of the tables emptied that
      way with blank lines of theirs, and lines of the keys added. */
  ghost predicate Rewritten(lines: seq<Line>, out: seq<Line>, keys: set<Path>) {
    exists plan :: out == OutFrom(lines, plan, 0) && PutsOnly(lines, plan) && PlanFor(lines, plan, keys) && GoesRight(lines, plan)
  }

  ghost predicate PutsOnly(lines: seq<Line>, plan: Plan) {
    forall j :: j in plan.put ==>
      IsSetting(lines, j) && plan.put[j].Entry? && plan.put[j].key == lines[j].key && plan.put[j].eol == lines[j].eol
  }

  lemma CarriedEols(lines: seq<Line>, ed: Edits, plan: Plan)
    requires EditsOk(lines, ed) && plan.put == ed.put
    ensures KeepsEols(lines, plan) && PutsOnly(lines, plan)
  {
    hide PlaceAt, IsInline;
  }

  // A setting of the result under the key of a setting of the original is that setting.
  lemma SameLine(lines: seq<Line>, want: map<Path, string>, touched: set<Path>, adds: Adds, plan: Plan, j: nat, g: Fact)
    requires WellFormed(lines) && AddsDone(lines, want, touched, adds) && PlanOk(lines, plan) && KeepsEols(lines, plan)
    requires forall k :: AddedCount(lines, plan.before, 0, k) == AddsCount(lines, adds, k)
    requires IsSetting(lines, j) && g.Bind? && g.key == FullKey(lines, j) && g in Reads(ROOT, OutFrom(lines, plan, 0))
    ensures KeptFact(lines, plan, j, g)
  {
    hide PlaceAt, AddsOk, AddsSay, AddsCount, AddedCount, OutFrom, Reads, PlanOk, KeepsEols, ValueOk;
    PlanFacts(lines, plan, g);
    assert Located(lines, g.key);
    forall q: nat ensures !AddedFact(lines, plan, q, g) {
      if AddedFact(lines, plan, q, g) {
        AddedIsCounted(lines, plan.before, 0, q, g);
      }
    }
  }

  lemma SettingStays(lines: seq<Line>, want: map<Path, string>, touched: set<Path>, ed: Edits, ed': Edits, adds: Adds, plan: Plan,
                     f: Fact, g: Fact)
    requires Merging(lines, want, touched, touched, ed) && AddsDone(lines, want, touched, adds) && PlanOk(lines, plan)
    requires EditsOk(lines, ed') && CarriedOut(lines, ed, ed', adds, plan)
    requires SameSetting(lines, OutFrom(lines, plan, 0), f, g)
    ensures StaysAround(f, g, touched)
  {
    hide PlaceAt, AddsDone, AddsCount, AddedCount, OutFrom, Reads, PlanOk, KeepsEols, WellFormed, Mergeable, PlainValues, Updated,
      RawSpot, ValueOk, LeftAlone, InlineEmpty, IsInline, RefusedIn, LeadsTo, Aside;
    var j := FactLine(lines, f);
    CarriedEols(lines, ed', plan);
    SameLine(lines, want, touched, adds, plan, j, g);
    assert SettingDone(lines, want, touched, touched, ed, j);
    KeptRaw(lines, ed', plan, j);
  }

  lemma FactLine(lines: seq<Line>, f: Fact) returns (j: nat)
    requires f in Reads(ROOT, lines) && f.Bind?
    ensures IsSetting(lines, j) && f == Bind(FullKey(lines, j), lines[j].raw, lines[j].eol)
  {
    hide FactsFrom, Reads, PlaceAt;
    FactsAreReads(lines);
    FactHasLine(lines, 0, f);
    j :| FactAt(lines, j, f);
  }

  lemma KeptRaw(lines: seq<Line>, ed: Edits, plan: Plan, j: nat)
    requires PlanOk(lines, plan) && EditsOk(lines, ed) && plan.put == ed.put && ed.inline == map[]
    requires IsSetting(lines, j) && (j in plan.drop <==> j in ed.drop)
    ensures j !in plan.drop ==> CurRaw(lines, ed, j) == Some(NewRaw(lines, plan, j))
    ensures j in plan.drop ==> CurRaw(lines, ed, j) == None
  {
    hide PlaceAt, PlanOk, IsInline;
  }

  // A setting with nothing to do is in the result, but for an empty table that a key leads to.
  lemma QuietStays(lines: seq<Line>, want: map<Path, string>, touched: set<Path>, ed: Edits, ed': Edits, adds: Adds, plan: Plan, f: Fact)
    requires Merging(lines, want, touched, touched, ed) && PlanOk(lines, plan)
    requires EditsOk(lines, ed') && CarriedOut(lines, ed, ed', adds, plan)
    requires f in Reads(ROOT, lines) && f.Bind? && !EmptyTable(f.raw)
    requires NothingFor(want, touched, f)
    ensures f in Reads(ROOT, OutFrom(lines, plan, 0))
  {
    hide PlaceAt, AddsCount, AddedCount, OutFrom, Reads, PlanOk, KeepsEols, WellFormed, Mergeable, PlainValues, Updated,
      SameSpots, InlineEmpty, IsInline, RefusedIn, LeadsTo, TabOf, NoChange;
    var j := FactLine(lines, f);
    CarriedEols(lines, ed', plan);
    assert SettingDone(lines, want, touched, touched, ed, j);
    assert CurRaw(lines, ed, j) == Some(f.raw);
    if j in ed.inline {
      RawEmpty(ed.inline[j]);
      assert j !in ed.drop && j !in ed.put;
    }
    KeptRaw(lines, ed', plan, j);
    PlanFacts(lines, plan, f);
    assert KeptFact(lines, plan, j, f);
  }

  /** The merged text, once no key is refused. */
  method Rewrite(lines: seq<Line>, sc: Scan, want: map<Path, string>, ghost touched: set<Path>, ed: Edits, adds: Adds)
    returns (out: seq<Line>)
    requires Scanned(lines, sc) && Merging(lines, want, touched, touched, ed) && AddsDone(lines, want, touched, adds)
    requires ed.refused == []
    ensures forall p, v :: Bound(out, p, v) <==> MergedHas(lines, want, touched, p, v)
    ensures HeldLines(out) == HeldLines(lines) && Notes(out) == Notes(lines)
    ensures OtherFacts(out, touched) == OtherFacts(lines, touched)
    ensures forall f, g :: SameSetting(lines, out, f, g) ==> StaysAround(f, g, touched)
    ensures forall f :: f in Reads(ROOT, lines) && f.Bind? && !EmptyTable(f.raw) && NothingFor(want, touched, f) ==> f in Reads(ROOT, out)
    ensures Rewritten(lines, out, touched)
    ensures forall k :: TimesGiven(out, k) <= 1
  {
    hide StaysAround, EmptyTable, NothingFor, KeepsEols, CarriedOut, AddedCount, AddsCount, TimesGiven, SettingCount,
      PlaceAt, WellFormed, Mergeable, PlainValues, EditsOk, EditsDone, AddsDone, AddsOk, Scanned, Bound, PlanOk, PlanFor,
      OutFrom, HeldLines, Notes, MayGo, Emptied, GoesRight, Placed, BeforeSays, AddsSay, OptSays, FullKey, MergedHas,
      OtherFacts;
    AllDone(lines, want, touched, ed, adds);
    var ed' := WriteBack(lines, ed);
    var before := PlaceAdds(lines, sc, adds);
    DropsAreSettings(lines, ed');
    var drop := DropEmptied(lines, sc, before, ed'.drop);
    var plan := Plan(before, drop, ed'.put);
    FinalPlan(lines, ed', before, drop);
    PlanHolds(lines, plan);
    ForTouched(lines, want, touched, ed, ed', adds, plan);
    PlanOthers(lines, plan, touched);
    CarriedEols(lines, ed', plan);
    out := Output(lines, plan);
    assert Rewritten(lines, out, touched);
    IsCarried(lines, ed, ed', adds, plan);
    forall f, g | SameSetting(lines, out, f, g) ensures StaysAround(f, g, touched) {
      SettingStays(lines, want, touched, ed, ed', adds, plan, f, g);
    }
    forall f | f in Reads(ROOT, lines) && f.Bind? && !EmptyTable(f.raw) && NothingFor(want, touched, f) ensures f in Reads(ROOT, out) {
      QuietStays(lines, want, touched, ed, ed', adds, plan, f);
    }
    forall p, v ensures Bound(out, p, v) <==> MergedHas(lines, want, touched, p, v) {
      MergedSays(lines, want, touched, ed, ed', adds, plan, p, v);
    }
    forall k ensures TimesGiven(out, k) <= 1 {
      PlanCounts(lines, plan, k);
      GivenOnce(lines, want, touched, adds, k);
    }
  }

  // Only settings that lead to merged keys change, and only merged keys are added.
  lemma ForTouched(lines: seq<Line>, want: map<Path, string>, touched: set<Path>, ed: Edits, ed': Edits, adds: Adds, plan: Plan)
    requires Merging(lines, want, touched, touched, ed) && AddsDone(lines, want, touched, adds) && PlanOk(lines, plan)
    requires plan.put == ed'.put && forall j: nat :: IsSetting(lines, j) ==> (j in plan.drop <==> j in ed'.drop)
    requires forall i: nat :: i in ed'.drop || i in ed'.put ==> i in ed.drop || i in ed.put || i in ed.inline
    requires forall k :: AddedCount(lines, plan.before, 0, k) == AddsCount(lines, adds, k)
    ensures PlanFor(lines, plan, touched)
  {
    hide PlaceAt, WellFormed, Mergeable, PlainValues, Updated, SameSpots, RefusedIn, AddsOk, AddsSay, AddsCount, AddedCount, Located,
      LeadsTo, Reads, PlanOk;
    forall j | (j in plan.drop || j in plan.put) && IsSetting(lines, j) ensures LeadsTo(FullKey(lines, j), touched) {
      assert SettingDone(lines, want, touched, touched, ed, j);
    }
    forall q, f | q in plan.before && q <= |lines| && f in Reads(PlaceAt(lines, q), plan.before[q]) ensures f.Bind? && f.key in touched {
      KeptReads(lines, plan, q);
      HoldsNone(Reads(PlaceAt(lines, q), plan.before[q]), f);
      AddedIsCounted(lines, plan.before, 0, q, f);
    }
  }

  lemma {:induction false} HoldsNone(facts: seq<Fact>, f: Fact)
    requires HeldOf(facts) == [] && f in facts
    ensures f.Bind?
  {
    if facts[0] != f {
      HoldsNone(facts[1..], f);
    }
  }

  // A key found in the file is not added; one that is added was not there.
  lemma GivenOnce(lines: seq<Line>, want: map<Path, string>, touched: set<Path>, adds: Adds, k: Path)
    requires WellFormed(lines) && AddsDone(lines, want, touched, adds)
    ensures AddsCount(lines, adds, k) + SettingCount(lines, 0, k) <= 1
  {
    hide PlaceAt, AddsOk, AddsSay, AddsCount, SettingCount, WellFormed;
    OneSetting(lines, 0, k);
    if !Located(lines, k) {
      NoSetting(lines, 0, k);
    }
  }

  lemma DropsAreSettings(lines: seq<Line>, ed: Edits)
    requires EditsOk(lines, ed)
    ensures forall j :: j in ed.drop ==> IsSetting(lines, j)
  {
    hide PlaceAt, IsInline;
  }

  lemma AllDone(lines: seq<Line>, want: map<Path, string>, touched: set<Path>, ed: Edits, adds: Adds)
    requires Merging(lines, want, touched, touched, ed) && AddsDone(lines, want, touched, adds)
    ensures WellFormed(lines) && EditsOk(lines, ed) && AddsOk(lines, adds)
  {
    hide PlaceAt;
  }

  // ---- The contract, in terms of the file and of the generated text ----

  /** The values generated for the keys merged are plain ones: no inline tables. */
  ghost predicate PlainGenerated(gen: seq<GenLine>, touched: seq<Path>) {
    forall i: nat, k :: Generates(gen, i, k) && k in touched ==> ValueToken(gen[i].raw)
  }

  /** The key cannot be written: a plain value stands above it, or it stands above keys of an inline
      table without being one of them. */
  ghost predicate Unwritable(lines: seq<Line>, k: Path) {
    BlockedIn(lines, k) || AboveIn(lines, k)
  }

  /** The key holds an inline table whose text is the very value generated for it. */
  ghost predicate Stays(lines: seq<Line>, gen: seq<GenLine>, k: Path) {
    exists t :: TableIn(lines, k, t) && Asks(gen, k, t)
  }

  /** A touched key above the path holds an inline table that does not stay. */
  ghost predicate Gone(lines: seq<Line>, gen: seq<GenLine>, touched: seq<Path>, p: Path) {
    exists k, t :: k in touched && Under(k, p) && TableIn(lines, k, t) && !Stays(lines, gen, k)
  }

  /** There is nothing to do for the touched keys that the setting leads to: each one generated already has
      its value there, and the setting holds nothing under the others. */
  ghost predicate Idle(gen: seq<GenLine>, touched: seq<Path>, f: Fact)
    requires f.Bind?
  {
    forall k :: k in touched && f.key <= k ==>
      var spot := RawSpot(f.key, f.raw, k);
      if Generated(gen, k) then spot.Leads? && Asks(gen, k, Unquote(spot.val)) else !spot.Leads?
  }

  /** A merge writes every touched key that is generated and removes the others. An inline table stored
      under a touched key is replaced or removed whole, or stays when its text is the value asked.
      Nothing else changes: not a setting, its text and its end comment included, not a tunnel, not a
      comment; no key is given twice. A setting that stays keeps its end comment, and its text where there
      is nothing to do; only lines of the keys, and headers and blank lines of tables they empty, come or go.
      It is refused exactly when a key to write cannot be written. */
  method MergeConnection(lines: seq<Line>, gen: seq<GenLine>, touched: seq<Path>) returns (r: Outcome)
    requires WellFormed(lines) && Mergeable(lines, SetOf(touched)) && PlainGenerated(gen, touched)
    ensures r.Refused? <==> exists k :: k in touched && Generated(gen, k) && Unwritable(lines, k)
    ensures r.Refused? ==> forall k :: k in r.keys <==> k in touched && Generated(gen, k) && Unwritable(lines, k)
    ensures r.Merged? ==>
              forall p, v :: Bound(r.lines, p, v)
                <==> if p in touched && !Stays(lines, gen, p) then Asks(gen, p, v)
                     else Bound(lines, p, v) && !Gone(lines, gen, touched, p)
    ensures r.Merged? ==> OtherFacts(r.lines, SetOf(touched)) == OtherFacts(lines, SetOf(touched))
    ensures r.Merged? ==> forall f, g :: SameSetting(lines, r.lines, f, g) ==> StaysAround(f, g, SetOf(touched))
    ensures r.Merged? ==>
              forall f :: f in Reads(ROOT, lines) && f.Bind? && !EmptyTable(f.raw) && Idle(gen, touched, f) ==> f in Reads(ROOT, r.lines)
    ensures r.Merged? ==> Rewritten(lines, r.lines, SetOf(touched))
    ensures r.Merged? ==> HeldLines(r.lines) == HeldLines(lines) && Notes(r.lines) == Notes(lines)
    ensures r.Merged? ==> forall k :: TimesGiven(r.lines, k) <= 1
  {
    hide SameSetting, StaysAround, EmptyTable, Rewritten, Idle, NothingFor, Reads, TimesGiven, PlaceAt, WellFormed, Mergeable, PlainValues,
      PlainGenerated, Merging, AddsDone, Collected, Unwritable, Bound, HeldLines,
      Notes, Scanned, Asks, Generated, Distinct, OtherFacts, MergedHas, Stays, Gone;
    var sc := ScanConnection(lines);
    var order, want := GeneratedRaws(gen);
    OrderDistinct(gen, order, want);
    MergedKeysHold(order, touched);
    WantedPlain(gen, order, want, touched);
    var ed, adds := MergeKeys(lines, sc, want, MergedKeys(order, touched), SetOf(touched));
    RefusedExactly(lines, gen, order, want, touched, ed);
    if ed.refused != [] {
      assert ed.refused[0] in ed.refused;
      return Refused(ed.refused);
    }
    var out := Rewrite(lines, sc, want, SetOf(touched), ed, adds);
    forall p, v ensures Bound(out, p, v)
      <==> if p in touched && !Stays(lines, gen, p) then Asks(gen, p, v) else Bound(lines, p, v) && !Gone(lines, gen, touched, p) {
      InGenerated(lines, gen, order, want, touched, p, v);
    }
    forall f | f in Reads(ROOT, lines) && f.Bind? && !EmptyTable(f.raw) && Idle(gen, touched, f) ensures f in Reads(ROOT, out) {
      IdleMeans(gen, order, want, touched, f);
    }
    r := Merged(out);
  }

  lemma IdleMeans(gen: seq<GenLine>, order: seq<Path>, want: map<Path, string>, touched: seq<Path>, f: Fact)
    requires Collected(gen, |gen|, order, want) && f.Bind? && Idle(gen, touched, f)
    ensures NothingFor(want, SetOf(touched), f)
  {
    hide Collected, Generated, Asks, RawSpot, Unquote;
    forall k | k in SetOf(touched) && f.key <= k ensures NoChange(f.key, f.raw, want, k) {
      var spot := RawSpot(f.key, f.raw, k);
      WantedIsAsked(gen, order, want, k, if spot.Leads? then Unquote(spot.val) else "");
    }
  }

  lemma WantedPlain(gen: seq<GenLine>, order: seq<Path>, want: map<Path, string>, touched: seq<Path>)
    requires Collected(gen, |gen|, order, want) && PlainGenerated(gen, touched)
    ensures PlainValues(want, SetOf(touched))
  {
    hide SectionAt, Distinct, ValueToken;
    forall k | k in want && k in SetOf(touched) ensures ValueToken(want[k]) {
      var i: nat :| i < |gen| && LastOf(gen, |gen|, i, k) && want[k] == gen[i].raw;
    }
  }

  lemma KeptStays(lines: seq<Line>, gen: seq<GenLine>, order: seq<Path>, want: map<Path, string>, k: Path)
    requires Collected(gen, |gen|, order, want)
    ensures KeepsTable(lines, want, k) <==> Stays(lines, gen, k)
  {
    hide TableIn, Asks, Wanted, Collected;
    forall t ensures Wanted(want, k, t) <==> Asks(gen, k, t) {
      WantedIsAsked(gen, order, want, k, t);
    }
  }

  lemma InGenerated(lines: seq<Line>, gen: seq<GenLine>, order: seq<Path>, want: map<Path, string>, touched: seq<Path>, p: Path, v: string)
    requires Collected(gen, |gen|, order, want)
    ensures MergedHas(lines, want, SetOf(touched), p, v)
       <==> if p in touched && !Stays(lines, gen, p) then Asks(gen, p, v) else Bound(lines, p, v) && !Gone(lines, gen, touched, p)
  {
    hide TableIn, Asks, Wanted, Collected, KeepsTable, Stays, Bound;
    WantedIsAsked(gen, order, want, p, v);
    forall k ensures KeepsTable(lines, want, k) <==> Stays(lines, gen, k) {
      KeptStays(lines, gen, order, want, k);
    }
  }

  lemma RefusedExactly(lines: seq<Line>, gen: seq<GenLine>, order: seq<Path>, want: map<Path, string>, touched: seq<Path>, ed: Edits)
    requires Merging(lines, want, SetOf(touched), SetOf(touched), ed) && Collected(gen, |gen|, order, want)
    ensures forall k :: k in ed.refused <==> k in touched && Generated(gen, k) && Unwritable(lines, k)
  {
    hide PlaceAt, WellFormed, Mergeable, PlainValues, Collected, Generated, EditsOk, SettingDone, RefusedIn, BlockedIn, AboveIn;
    forall k ensures k in ed.refused <==> k in touched && Generated(gen, k) && Unwritable(lines, k) {
      WantedIsAsked(gen, order, want, k, "");
      RefusedMeans(lines, k);
    }
  }
}
