/** How many times an edited file gives a key. */
module MergeCounts {
  import opened InlineTables
  import opened TomlLines
  import opened MergePlan

  /** Number of settings of the facts under the full key `k`. */
  function KeyCount(facts: seq<Fact>, k: Path): nat {
    if facts == [] then 0 else (if facts[0].Bind? && facts[0].key == k then 1 else 0) + KeyCount(facts[1..], k)
  }

  /** Number of times the file gives the key. */
  function TimesGiven(lines: seq<Line>, k: Path): nat {
    KeyCount(Reads(ROOT, lines), k)
  }

  lemma {:induction false} CountApart(a: seq<Fact>, b: seq<Fact>, k: Path)
    ensures KeyCount(a + b, k) == KeyCount(a, k) + KeyCount(b, k)
  {
    if a == [] {
      assert a + b == b;
    } else {
      Cut(a, b);
      CountApart(a[1..], b, k);
    }
  }

  lemma CountNone(k: Path)
    ensures KeyCount([], k) == 0
  {
  }

  function LinesCount(place: Place, ls: seq<Line>, k: Path): nat {
    KeyCount(Reads(place, ls), k)
  }

  /** Times that the lines added from position `i` on give the key. */
  function AddedCount(lines: seq<Line>, before: map<nat, seq<Line>>, i: nat, k: Path): nat
    decreases |lines| + 1 - i
  {
    if i > |lines| then 0
    else (if i in before then LinesCount(PlaceAt(lines, i), before[i], k) else 0) + AddedCount(lines, before, i + 1, k)
  }

  /** Settings of the file from line `i` on with that key. */
  function SettingCount(lines: seq<Line>, i: nat, k: Path): nat
    decreases |lines| - i
  {
    if i >= |lines| then 0
    else (if IsSetting(lines, i) && FullKey(lines, i) == k then 1 else 0) + SettingCount(lines, i + 1, k)
  }

  lemma {:induction false} NoSetting(lines: seq<Line>, i: nat, k: Path)
    requires forall j: nat :: i <= j && IsSetting(lines, j) ==> FullKey(lines, j) != k
    ensures SettingCount(lines, i, k) == 0
    decreases |lines| - i
  {
    hide PlaceAt;
    if i < |lines| {
      NoSetting(lines, i + 1, k);
    }
  }

  lemma {:induction false} OneSetting(lines: seq<Line>, i: nat, k: Path)
    requires WellFormed(lines)
    ensures SettingCount(lines, i, k) <= 1
    decreases |lines| - i
  {
    hide PlaceAt;
    if i < |lines| {
      if IsSetting(lines, i) && FullKey(lines, i) == k {
        NoSetting(lines, i + 1, k);
      } else {
        OneSetting(lines, i + 1, k);
      }
    }
  }

  lemma KeptCounts(lines: seq<Line>, plan: Plan, i: nat, k: Path)
    requires PlanOk(lines, plan) && i < |lines|
    ensures LinesCount(PlaceAt(lines, i), Kept(lines, plan, i), k)
         <= if IsSetting(lines, i) && FullKey(lines, i) == k then 1 else 0
  {
    hide Dead, PlaceAt, Next, AddOk;
    var s := PlaceAt(lines, i);
    assert i in plan.put ==> IsSetting(lines, i);
    if i !in plan.drop {
      ReadsOne(s, Kept(lines, plan, i)[0]);
      OneLineCounts(s, Kept(lines, plan, i)[0], k);
    } else {
      Nothing(s);
      CountNone(k);
    }
  }

  lemma OneLineCounts(s: Place, x: Line, k: Path)
    ensures KeyCount(ReadOne(s, x), k) == if s.Table? && x.Entry? && s.path + x.key == k then 1 else 0
  {
    if ReadOne(s, x) != [] {
      assert ReadOne(s, x)[1..] == [];
    }
  }

  lemma ChunkCounts(lines: seq<Line>, plan: Plan, i: nat, k: Path)
    requires PlanOk(lines, plan) && i <= |lines|
    ensures LinesCount(PlaceAt(lines, i), Chunk(lines, plan, i), k)
         <= (if i in plan.before then LinesCount(PlaceAt(lines, i), plan.before[i], k) else 0)
            + if i < |lines| && IsSetting(lines, i) && FullKey(lines, i) == k then 1 else 0
  {
    hide PlanOk, Reads, KeyCount, Kept, After, PlaceAt;
    var s, a, c := PlaceAt(lines, i), Added(plan, i), Kept(lines, plan, i);
    ReadsApart(s, a, c);
    KeptReads(lines, plan, i);
    CountApart(Reads(s, a), Reads(s, c), k);
    Nothing(s);
    CountNone(k);
    if i < |lines| {
      KeptCounts(lines, plan, i, k);
    } else {
      KeptNone(lines, plan);
    }
  }

  lemma {:induction false} FlatCounts(lines: seq<Line>, plan: Plan, i: nat, k: Path)
    requires PlanOk(lines, plan)
    ensures KeyCount(Flat(lines, plan, i), k) <= AddedCount(lines, plan.before, i, k) + SettingCount(lines, i, k)
    decreases |lines| + 1 - i
  {
    hide PlanOk, Reads, KeyCount, Chunk, PlaceAt, IsSetting;
    CountNone(k);
    if i <= |lines| {
      ChunkCounts(lines, plan, i, k);
      CountApart(Reads(PlaceAt(lines, i), Chunk(lines, plan, i)), Flat(lines, plan, i + 1), k);
      FlatCounts(lines, plan, i + 1, k);
    }
  }

  /** The edited file gives a key at most as often as the added lines and the original together. */
  lemma PlanCounts(lines: seq<Line>, plan: Plan, k: Path)
    requires WellFormed(lines) && PlanOk(lines, plan)
    ensures TimesGiven(OutFrom(lines, plan, 0), k) <= AddedCount(lines, plan.before, 0, k) + SettingCount(lines, 0, k)
  {
    hide PlanOk, WellFormed, Reads, KeyCount;
    PlanReads(lines, plan);
    FlatCounts(lines, plan, 0, k);
  }

  // ---- Adding lines ----

  /** Lines added in front of position `q`, behind those already there. */
  function Push(before: map<nat, seq<Line>>, q: nat, ls: seq<Line>): map<nat, seq<Line>> {
    before[q := (if q in before then before[q] else []) + ls]
  }

  lemma {:induction false} PushCounts(lines: seq<Line>, before: map<nat, seq<Line>>, q: nat, ls: seq<Line>, k: Path, i: nat)
    requires q <= |lines| && (q in before ==> PlaceAt(lines, q).Table? && Plain(before[q]))
    ensures AddedCount(lines, Push(before, q, ls), i, k)
         == AddedCount(lines, before, i, k) + if i <= q then LinesCount(PlaceAt(lines, q), ls, k) else 0
    decreases |lines| + 1 - i
  {
    hide PlaceAt, LinesCount, Plain;
    if i <= |lines| {
      PushCounts(lines, before, q, ls, k, i + 1);
      if i == q {
        PushedCounts(PlaceAt(lines, q), if q in before then before[q] else [], ls, k);
      }
    }
  }

  lemma PushedCounts(s: Place, was: seq<Line>, ls: seq<Line>, k: Path)
    requires was == [] || (s.Table? && Plain(was))
    ensures LinesCount(s, was + ls, k) == LinesCount(s, was, k) + LinesCount(s, ls, k)
    ensures LinesCount(s, [], k) == 0
  {
    hide Reads, KeyCount, After, Plain;
    Nothing(s);
    CountNone(k);
    if was == [] {
      assert [] + ls == ls;
    } else {
      PlainKeeps(s, was);
      ReadsApart(s, was, ls);
      CountApart(Reads(s, was), Reads(s, ls), k);
    }
  }

  lemma {:induction false} NoneAdded(lines: seq<Line>, i: nat, k: Path)
    ensures AddedCount(lines, map[], i, k) == 0
    decreases |lines| + 1 - i
  {
    if i <= |lines| {
      NoneAdded(lines, i + 1, k);
    }
  }

  lemma {:induction false} CountedIn(facts: seq<Fact>, f: Fact)
    requires f in facts && f.Bind?
    ensures KeyCount(facts, f.key) > 0
  {
    if facts[0] != f {
      CountedIn(facts[1..], f);
    }
  }

  /** A key that some added line gives is counted. */
  lemma {:induction false} AddedIsCounted(lines: seq<Line>, before: map<nat, seq<Line>>, i: nat, q: nat, f: Fact)
    requires i <= q <= |lines| && q in before && f.Bind? && f in Reads(PlaceAt(lines, q), before[q])
    ensures AddedCount(lines, before, i, f.key) > 0
    decreases q - i
  {
    hide PlaceAt, Reads;
    if i == q {
      CountedIn(Reads(PlaceAt(lines, q), before[q]), f);
    } else {
      AddedIsCounted(lines, before, i + 1, q, f);
    }
  }
}
