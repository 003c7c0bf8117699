/** What a merged file says: the keys merged as they are asked, and everything else as before, but for
    the inline tables that a merged key replaces or removes. */
module MergeMeaning {
  import opened Wrappers
  import opened InlineTables
  import opened TomlStrings
  import opened InlineRefines
  import opened InlineValues
  import opened TomlLines
  import opened MergeScan
  import opened MergeEdits

  /** Some setting is the key, or leads to it. */
  ghost predicate Located(lines: seq<Line>, k: Path) {
    exists i: nat :: IsSetting(lines, i) && FullKey(lines, i) <= k
  }

  /** The key holds an inline table whose text is the very value asked. */
  ghost predicate KeepsTable(lines: seq<Line>, want: map<Path, string>, k: Path) {
    exists t :: TableIn(lines, k, t) && Wanted(want, k, t)
  }

  /** A merged key above the path holds an inline table, which it replaces or removes. */
  ghost predicate Cleared(lines: seq<Line>, want: map<Path, string>, touched: set<Path>, p: Path) {
    exists k, t :: k in touched && Under(k, p) && TableIn(lines, k, t) && !KeepsTable(lines, want, k)
  }

  ghost predicate MergedHas(lines: seq<Line>, want: map<Path, string>, touched: set<Path>, p: Path, v: string) {
    if p in touched && !KeepsTable(lines, want, p) then Wanted(want, p, v)
    else Bound(lines, p, v) && !Cleared(lines, want, touched, p)
  }

  // ---- A key led to by one setting ----

  lemma TableAt(lines: seq<Line>, j: nat, k: Path, t: string)
    requires WellFormed(lines) && IsSetting(lines, j) && FullKey(lines, j) <= k
    ensures TableIn(lines, k, t) <==> Opens(t) && EntrySpot(lines, j, k) == Leads(t)
  {
    hide PlaceAt, WellFormed, EntrySpot;
    if TableIn(lines, k, t) {
      var i: nat :| IsSetting(lines, i) && FullKey(lines, i) <= k && EntrySpot(lines, i, k) == Leads(t);
      if i != j {
        SettingsApart(lines, j, i, k);
      }
    }
  }

  lemma KeepsAt(lines: seq<Line>, want: map<Path, string>, j: nat, k: Path)
    requires WellFormed(lines) && IsSetting(lines, j) && FullKey(lines, j) <= k
    ensures KeepsTable(lines, want, k) <==> Kept(EntrySpot(lines, j, k), Asked(want, k))
  {
    hide PlaceAt, WellFormed, EntrySpot, TableIn, Unquote;
    forall t ensures TableIn(lines, k, t) <==> Opens(t) && EntrySpot(lines, j, k) == Leads(t) {
      TableAt(lines, j, k, t);
    }
    var spot := EntrySpot(lines, j, k);
    if Kept(spot, Asked(want, k)) {
      assert TableIn(lines, k, spot.val) && Wanted(want, k, spot.val);
    }
  }

  lemma OnlyHere(lines: seq<Line>, j: nat, p: Path, v: string)
    requires WellFormed(lines) && IsSetting(lines, j) && FullKey(lines, j) <= p
    ensures Bound(lines, p, v) <==> RawSays(FullKey(lines, j), lines[j].raw, p, v)
  {
    hide RawSays, PlaceAt, ValueOk;
    BoundBySetting(lines, p, v);
    forall i: nat | IsSetting(lines, i) && RawSays(FullKey(lines, i), lines[i].raw, p, v) ensures i == j {
      SaysBelow(FullKey(lines, i), lines[i].raw, p, v);
      PrefixesMeet(FullKey(lines, i), FullKey(lines, j), p);
    }
  }

  // A key that is not merged is passed over exactly when a table above it is replaced or removed.
  lemma HitIsCleared(lines: seq<Line>, want: map<Path, string>, touched: set<Path>, j: nat, p: Path, v: string)
    requires WellFormed(lines) && IsSetting(lines, j) && FullKey(lines, j) <= p && p !in touched
    requires RawSays(FullKey(lines, j), lines[j].raw, p, v)
    ensures Hit(FullKey(lines, j), lines[j].raw, want, touched, p) <==> Cleared(lines, want, touched, p)
  {
    hide PlaceAt, RawSays, RawSpot, KeepsTable, TableIn, Kept, Acts, WellFormed;
    var f, raw := FullKey(lines, j), lines[j].raw;
    forall k | k in touched && f <= k && Under(k, p)
      ensures Acts(f, raw, want, k) <==> (exists t :: TableIn(lines, k, t)) && !KeepsTable(lines, want, k) {
      ActsOnTable(lines, want, j, k, p, v);
    }
    forall k, t | Under(k, p) && TableIn(lines, k, t) ensures f <= k {
      TableHost(lines, j, k, t, p);
    }
    if Hit(f, raw, want, touched, p) {
      var k :| k in touched && f <= k && k <= p && Acts(f, raw, want, k);
      assert |k| == |p| ==> k == p;
      assert Under(k, p);
      var t :| TableIn(lines, k, t);
    }
    if Cleared(lines, want, touched, p) {
      var k, t :| k in touched && Under(k, p) && TableIn(lines, k, t) && !KeepsTable(lines, want, k);
      assert f <= k && Acts(f, raw, want, k);
    }
  }

  lemma ActsOnTable(lines: seq<Line>, want: map<Path, string>, j: nat, k: Path, p: Path, v: string)
    requires WellFormed(lines) && IsSetting(lines, j) && FullKey(lines, j) <= k && Under(k, p)
    requires RawSays(FullKey(lines, j), lines[j].raw, p, v)
    ensures Acts(FullKey(lines, j), lines[j].raw, want, k) <==> (exists t :: TableIn(lines, k, t)) && !KeepsTable(lines, want, k)
  {
    hide PlaceAt, RawSays, RawSpot, KeepsTable, TableIn, ValueOk, Kept;
    var f, raw := FullKey(lines, j), lines[j].raw;
    SaidLeads(f, raw, p, v, k);
    KeepsAt(lines, want, j, k);
    var spot := RawSpot(f, raw, k);
    assert spot == EntrySpot(lines, j, k);
    forall t ensures TableIn(lines, k, t) <==> Opens(t) && spot == Leads(t) {
      TableAt(lines, j, k, t);
    }
    if spot.Leads? {
      assert TableIn(lines, k, spot.val);
    }
  }

  lemma TableHost(lines: seq<Line>, j: nat, k: Path, t: string, p: Path)
    requires WellFormed(lines) && IsSetting(lines, j) && FullKey(lines, j) <= p && Under(k, p) && TableIn(lines, k, t)
    ensures FullKey(lines, j) <= k
  {
    hide PlaceAt, WellFormed, EntrySpot;
    var i: nat :| IsSetting(lines, i) && FullKey(lines, i) <= k && EntrySpot(lines, i, k) == Leads(t);
    assert FullKey(lines, i) <= p;
    if i != j {
      SettingsApart(lines, j, i, p);
    }
  }

  // A setting that leads to the path says there what the merged file must say.
  lemma LocatedSays(lines: seq<Line>, want: map<Path, string>, touched: set<Path>, j: nat, p: Path, v: string)
    requires WellFormed(lines) && IsSetting(lines, j) && FullKey(lines, j) <= p && NoneAbove(touched)
    requires p in touched && p in want ==> !RefusedIn(lines, p)
    ensures MustSay(FullKey(lines, j), lines[j].raw, want, touched, p, v) <==> MergedHas(lines, want, touched, p, v)
  {
    hide PlaceAt, RawSays, RawSpot, KeepsTable, TableIn, Bound, Wanted, Cleared, Hit, WellFormed;
    OnlyHere(lines, j, p, v);
    if p in touched {
      MergedKey(lines, want, touched, j, p, v);
    } else if RawSays(FullKey(lines, j), lines[j].raw, p, v) {
      HitIsCleared(lines, want, touched, j, p, v);
    }
  }

  lemma MergedKey(lines: seq<Line>, want: map<Path, string>, touched: set<Path>, j: nat, p: Path, v: string)
    requires WellFormed(lines) && IsSetting(lines, j) && FullKey(lines, j) <= p && NoneAbove(touched) && p in touched
    requires p in want ==> !RefusedIn(lines, p)
    ensures MustSay(FullKey(lines, j), lines[j].raw, want, touched, p, v)
       <==> if KeepsTable(lines, want, p) then RawSays(FullKey(lines, j), lines[j].raw, p, v) else Wanted(want, p, v)
    ensures !Cleared(lines, want, touched, p)
  {
    hide PlaceAt, RawSays, RawSpot, KeepsTable, TableIn, Kept, ValueOk, WellFormed;
    var f, raw := FullKey(lines, j), lines[j].raw;
    OnlyItself(touched, touched, p);
    KeepsAt(lines, want, j, p);
    assert Hit(f, raw, want, touched, p) <==> Acts(f, raw, want, p);
    var spot := RawSpot(f, raw, p);
    assert spot == EntrySpot(lines, j, p);
    SettingOk(lines, j);
    if spot.Stuck? || spot.Above? {
      NotWritten(lines, want, j, p, v);
    }
  }

  lemma SettingOk(lines: seq<Line>, j: nat)
    requires WellFormed(lines) && IsSetting(lines, j)
    ensures ValueOk(lines[j].raw)
  {
  }

  // A key that cannot be written is not asked for, and says nothing.
  lemma NotWritten(lines: seq<Line>, want: map<Path, string>, j: nat, p: Path, v: string)
    requires WellFormed(lines) && IsSetting(lines, j) && FullKey(lines, j) <= p && ValueOk(lines[j].raw)
    requires EntrySpot(lines, j, p).Stuck? || EntrySpot(lines, j, p).Above?
    requires p in want ==> !RefusedIn(lines, p)
    ensures p !in want && !RawSays(FullKey(lines, j), lines[j].raw, p, v)
    ensures !Kept(EntrySpot(lines, j, p), Asked(want, p))
  {
    hide PlaceAt, RawSays, ValueOk, WellFormed;
    var f, raw := FullKey(lines, j), lines[j].raw;
    assert f != p;
    assert RefusedAt(lines, j, p);
    if RawSays(f, raw, p, v) {
      SaidLeads(f, raw, p, v, p);
    }
  }

  // ---- The whole file ----

  ghost predicate SomeMustSay(lines: seq<Line>, want: map<Path, string>, touched: set<Path>, p: Path, v: string) {
    exists j: nat :: IsSetting(lines, j) && MustSay(FullKey(lines, j), lines[j].raw, want, touched, p, v)
  }

  /** The settings changed as they must be, and the keys added, together say what a merged file says. */
  lemma FileSays(lines: seq<Line>, want: map<Path, string>, touched: set<Path>, p: Path, v: string)
    requires WellFormed(lines) && NoneAbove(touched)
    requires p in touched && p in want ==> !RefusedIn(lines, p)
    ensures SomeMustSay(lines, want, touched, p, v) || (p in touched && !Located(lines, p) && Wanted(want, p, v))
       <==> MergedHas(lines, want, touched, p, v)
  {
    hide PlaceAt, MustSay, Wanted, WellFormed, Bound;
    if j: nat :| IsSetting(lines, j) && FullKey(lines, j) <= p {
      LocatedSays(lines, want, touched, j, p, v);
      forall i: nat | IsSetting(lines, i) && MustSay(FullKey(lines, i), lines[i].raw, want, touched, p, v) ensures i == j {
        MustBelow(FullKey(lines, i), lines[i].raw, want, touched, p, v);
        if i != j {
          SettingsApart(lines, j, i, p);
        }
      }
    } else {
      forall i: nat | IsSetting(lines, i) ensures !MustSay(FullKey(lines, i), lines[i].raw, want, touched, p, v) {
        MustBelow(FullKey(lines, i), lines[i].raw, want, touched, p, v);
      }
      NotBound(lines, p, v);
      hide TableIn;
      forall t ensures !TableIn(lines, p, t) {
        NoTable(lines, p, t);
      }
    }
  }

  lemma NoTable(lines: seq<Line>, p: Path, t: string)
    requires forall j: nat :: IsSetting(lines, j) ==> !(FullKey(lines, j) <= p)
    ensures !TableIn(lines, p, t)
  {
    hide PlaceAt, EntrySpot;
  }

  lemma MustBelow(f: Path, raw: string, want: map<Path, string>, touched: set<Path>, p: Path, v: string)
    ensures MustSay(f, raw, want, touched, p, v) ==> f <= p
  {
    hide RawSays, Acts, Wanted;
    SaysBelow(f, raw, p, v);
    if k: Path :| k in touched && f <= k && k <= p {
    }
  }

  lemma NotBound(lines: seq<Line>, p: Path, v: string)
    requires forall j: nat :: IsSetting(lines, j) ==> !(FullKey(lines, j) <= p)
    ensures !Bound(lines, p, v)
  {
    hide PlaceAt, RawSays;
    BoundBySetting(lines, p, v);
    forall j: nat | IsSetting(lines, j) ensures !RawSays(FullKey(lines, j), lines[j].raw, p, v) {
      SaysBelow(FullKey(lines, j), lines[j].raw, p, v);
    }
  }
}
