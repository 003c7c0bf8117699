/** The edits of a merge (lines added in front of others, removed, replaced) and what the edited
    file says. */
module MergePlan {
  import opened InlineTables
  import opened InlineValues
  import opened TomlLines

  /** before: lines added in front of a position (|lines|: at the end). */
  datatype Plan = Plan(before: map<nat, seq<Line>>, drop: set<nat>, put: map<nat, Line>)

  function Added(plan: Plan, i: nat): seq<Line> {
    if i in plan.before then plan.before[i] else []
  }

  function Kept(lines: seq<Line>, plan: Plan, i: nat): seq<Line> {
    if i < |lines| && i !in plan.drop then [if i in plan.put then plan.put[i] else lines[i]] else []
  }

  function Chunk(lines: seq<Line>, plan: Plan, i: nat): seq<Line> {
    Added(plan, i) + Kept(lines, plan, i)
  }

  /** The edited file, from position `i` on. */
  function OutFrom(lines: seq<Line>, plan: Plan, i: nat): seq<Line>
    decreases |lines| + 1 - i
  {
    if i > |lines| then [] else Chunk(lines, plan, i) + OutFrom(lines, plan, i + 1)
  }

  // ---- What a plan must respect ----

  predicate Silent(line: Line) {
    line.Blank? || line.Note?
  }

  predicate TunnelHead(line: Line) {
    line.Header? && line.isArray && TunnelName(line.name)
  }

  /** The table headed at `x` leaves whole: nothing of it is kept and nothing is added to it. */
  ghost predicate Dead(lines: seq<Line>, plan: Plan, x: nat) {
    && x < |lines| && lines[x].Header? && !lines[x].isArray && PlaceAt(lines, x + 1).Table?
    && exists stop: nat :: DeadTo(lines, plan, x, stop)
  }

  ghost predicate DeadTo(lines: seq<Line>, plan: Plan, x: nat, stop: nat) {
    && x < stop <= |lines|
    && (stop < |lines| ==> lines[stop].Header?)
    && (forall j :: x < j < stop ==> lines[j].Blank? || (IsSetting(lines, j) && j in plan.drop))
    && forall j :: x < j <= stop ==> j !in plan.before
  }

  /** From `q` to the first tunnel, or to the end, nothing but blank lines and comments. */
  ghost predicate Tail(lines: seq<Line>, plan: Plan, q: nat) {
    exists limit: nat :: TailTo(lines, plan, q, limit)
  }

  ghost predicate TailTo(lines: seq<Line>, plan: Plan, q: nat, limit: nat) {
    && q <= limit <= |lines|
    && (limit < |lines| ==> TunnelHead(lines[limit]))
    && (forall j :: q <= j < limit ==> Silent(lines[j]))
    && forall j :: q < j <= limit ==> j !in plan.before
  }

  ghost predicate AddOk(lines: seq<Line>, plan: Plan, q: nat)
    requires q in plan.before
  {
    && q <= |lines|
    && (|| (PlaceAt(lines, q).Table? && Plain(plan.before[q]))
        || (Tail(lines, plan, q) && HeldOf(Reads(PlaceAt(lines, q), plan.before[q])) == [] && Notes(plan.before[q]) == []
            && forall x :: x in plan.before[q] ==> !TunnelHead(x)))
  }

  ghost predicate PlanOk(lines: seq<Line>, plan: Plan) {
    && (forall j :: j in plan.drop ==>
          j < |lines| && (lines[j].Blank? || IsSetting(lines, j) || Dead(lines, plan, j)))
    && (forall j :: j in plan.put ==>
          IsSetting(lines, j) && plan.put[j].Entry? && plan.put[j].key == lines[j].key)
    && forall q :: q in plan.before ==> AddOk(lines, plan, q)
  }

  /** Value of a setting after the edits (None: removed). */
  function NewRaw(lines: seq<Line>, plan: Plan, i: nat): string
    requires IsSetting(lines, i) && (i in plan.put ==> plan.put[i].Entry?)
  {
    if i in plan.put then plan.put[i].raw else lines[i].raw
  }

  // ---- Reading the edited file ----

  // From `i` to the next header nothing is said, so the place no longer matters.
  predicate Quiet(lines: seq<Line>, plan: Plan, i: nat)
    decreases |lines| + 1 - i
  {
    || i > |lines|
    || (Mute(Chunk(lines, plan, i)) && (i < |lines| ==> !TunnelHead(lines[i])) && Quiet(lines, plan, i + 1))
    || (i < |lines| && Chunk(lines, plan, i) == [lines[i]] && lines[i].Header?)
  }

  predicate Mute(lines: seq<Line>) {
    forall x :: x in lines ==> Silent(x)
  }

  lemma {:induction false} MuteSays(place: Place, lines: seq<Line>)
    requires Mute(lines)
    ensures Reads(place, lines) == [] && After(place, lines) == place
  {
    if lines != [] {
      assert lines[0] in lines;
      MuteSays(place, lines[1..]);
    }
  }

  predicate InStep(lines: seq<Line>, plan: Plan, i: nat) {
    || i >= |lines|
    || After(PlaceAt(lines, i), Chunk(lines, plan, i)) == PlaceAt(lines, i + 1)
    || (Quiet(lines, plan, i + 1) && Seen(After(PlaceAt(lines, i), Chunk(lines, plan, i))) == Seen(PlaceAt(lines, i + 1)))
  }

  /** What each chunk says where it stood in the original. */
  function Flat(lines: seq<Line>, plan: Plan, i: nat): seq<Fact>
    decreases |lines| + 1 - i
  {
    if i > |lines| then [] else Reads(PlaceAt(lines, i), Chunk(lines, plan, i)) + Flat(lines, plan, i + 1)
  }

  // The edited file says what its chunks say one by one.
  lemma {:induction false} Assembled(lines: seq<Line>, plan: Plan, i: nat, o: Place)
    requires forall j :: i <= j <= |lines| ==> InStep(lines, plan, j)
    requires i > |lines| || o == PlaceAt(lines, i) || (Quiet(lines, plan, i) && Seen(o) == Seen(PlaceAt(lines, i)))
    ensures Reads(o, OutFrom(lines, plan, i)) == Flat(lines, plan, i)
    decreases |lines| + 1 - i
  {
    hide Chunk, Mute, TunnelPart, PlaceAt, ReadOne, Reads, After, Next, Seen;
    if i > |lines| {
      ReadsNothing(o);
    } else {
      var c := Chunk(lines, plan, i);
      ReadsApart(o, c, OutFrom(lines, plan, i + 1));
      var s := PlaceAt(lines, i);
      assert InStep(lines, plan, i);
      if o == s {
        Assembled(lines, plan, i + 1, After(o, c));
      } else if Mute(c) && Quiet(lines, plan, i + 1) {
        MuteSays(o, c);
        MuteSays(s, c);
        SeenStays(lines, i);
        Assembled(lines, plan, i + 1, o);
      } else {
        SettledReads(lines, i, o);
        Assembled(lines, plan, i + 1, After(o, c));
      }
    }
  }

  lemma SeenStays(lines: seq<Line>, i: nat)
    ensures i < |lines| && !TunnelHead(lines[i]) ==> Seen(PlaceAt(lines, i + 1)) == Seen(PlaceAt(lines, i))
  {
    hide Seen, Next;
    if i < |lines| {
      SeenNext(PlaceAt(lines, i), PlaceAt(lines, i), lines[i]);
    }
  }

  lemma ReadsNothing(place: Place)
    ensures Reads(place, []) == []
  {
  }

  lemma SettledReads(lines: seq<Line>, i: nat, o: Place)
    requires i < |lines| && lines[i].Header? && Seen(o) == Seen(PlaceAt(lines, i))
    ensures Reads(o, [lines[i]]) == Reads(PlaceAt(lines, i), [lines[i]])
    ensures After(o, [lines[i]]) == PlaceAt(lines, i + 1)
  {
    SeenNext(o, PlaceAt(lines, i), lines[i]);
    ReadsOne(o, lines[i]);
    ReadsOne(PlaceAt(lines, i), lines[i]);
  }

  // ---- Every chunk leaves the reader in step ----

  // The lines of a removed table say nothing, up to the next header that stays.
  lemma {:induction false} DeadIsQuiet(lines: seq<Line>, plan: Plan, x: nat)
    requires WellFormed(lines) && PlanOk(lines, plan) && Dead(lines, plan, x)
    ensures Quiet(lines, plan, x + 1)
    decreases |lines| - x, 1, 0
  {
    var stop: nat :| DeadTo(lines, plan, x, stop);
    SamePlace(lines, plan, x, stop, stop);
    DeadFrom(lines, plan, x, stop, x + 1);
  }

  lemma {:induction false} SamePlace(lines: seq<Line>, plan: Plan, x: nat, stop: nat, j: nat)
    requires x < |lines| && DeadTo(lines, plan, x, stop) && x < j <= stop
    ensures PlaceAt(lines, j) == PlaceAt(lines, x + 1)
    decreases j
  {
    if j > x + 1 {
      SamePlace(lines, plan, x, stop, j - 1);
    }
  }

  lemma {:induction false} DeadFrom(lines: seq<Line>, plan: Plan, x: nat, stop: nat, j: nat)
    requires WellFormed(lines) && PlanOk(lines, plan)
    requires x < |lines| && DeadTo(lines, plan, x, stop) && x < j <= stop
    requires PlaceAt(lines, stop).Table?
    ensures Quiet(lines, plan, j)
    decreases |lines| - x, 0, stop - j
  {
    hide WellFormed, PlanOk, PlaceAt, IsSetting;
    if j < stop {
      DeadFrom(lines, plan, x, stop, j + 1);
      DeadChunk(lines, plan, x, stop, j);
    } else if stop < |lines| {
      DeadStop(lines, plan, x, stop);
      if stop in plan.drop {
        HeaderDropped(lines, plan, stop);
        DeadIsQuiet(lines, plan, stop);
      }
    }
  }

  lemma DeadChunk(lines: seq<Line>, plan: Plan, x: nat, stop: nat, j: nat)
    requires PlanOk(lines, plan) && DeadTo(lines, plan, x, stop) && x < j < stop
    ensures Mute(Chunk(lines, plan, j)) && !TunnelHead(lines[j])
  {
    assert Added(plan, j) == [];
    assert j in plan.put ==> IsSetting(lines, j);
  }

  lemma DeadStop(lines: seq<Line>, plan: Plan, x: nat, stop: nat)
    requires WellFormed(lines) && PlanOk(lines, plan)
    requires x < |lines| && DeadTo(lines, plan, x, stop) && stop < |lines| && PlaceAt(lines, stop).Table?
    ensures Chunk(lines, plan, stop) == if stop in plan.drop then [] else [lines[stop]]
    ensures stop in plan.drop ==> !TunnelHead(lines[stop])
  {
    assert stop !in plan.before;
    assert stop in plan.put ==> IsSetting(lines, stop);
  }

  lemma HeaderDropped(lines: seq<Line>, plan: Plan, x: nat)
    requires PlanOk(lines, plan) && x < |lines| && lines[x].Header? && x in plan.drop
    ensures Dead(lines, plan, x)
  {
  }

  lemma {:induction false} TailFrom(lines: seq<Line>, plan: Plan, q: nat, limit: nat, j: nat)
    requires PlanOk(lines, plan) && TailTo(lines, plan, q, limit) && q < j <= limit + 1
    requires j <= limit || limit == |lines|
    ensures Quiet(lines, plan, j)
    decreases limit + 1 - j
  {
    hide PlanOk, PlaceAt;
    if j < limit {
      SilentChunk(lines, plan, j);
      TailFrom(lines, plan, q, limit, j + 1);
    } else if j == limit {
      assert Added(plan, j) == [];
      if limit < |lines| {
        TunnelHeadStays(lines, plan, limit);
      } else {
        TailFrom(lines, plan, q, limit, j + 1);
      }
    }
  }

  lemma SilentChunk(lines: seq<Line>, plan: Plan, j: nat)
    requires PlanOk(lines, plan) && j < |lines| && Silent(lines[j])
    ensures Mute(Kept(lines, plan, j)) && (j !in plan.before ==> Mute(Chunk(lines, plan, j))) && !TunnelHead(lines[j])
  {
    assert j in plan.put ==> IsSetting(lines, j);
  }

  lemma TunnelHeadStays(lines: seq<Line>, plan: Plan, j: nat)
    requires PlanOk(lines, plan) && j < |lines| && TunnelHead(lines[j])
    ensures Kept(lines, plan, j) == [lines[j]]
  {
    assert j in plan.put ==> IsSetting(lines, j);
    assert j in plan.drop ==> Dead(lines, plan, j);
  }

  lemma TailInStep(lines: seq<Line>, plan: Plan, q: nat)
    requires PlanOk(lines, plan) && Tail(lines, plan, q) && forall x :: x in Added(plan, q) ==> !TunnelHead(x)
    ensures InStep(lines, plan, q)
  {
    hide PlanOk, Reads, After, PlaceAt, Quiet;
    var limit: nat :| TailTo(lines, plan, q, limit);
    if q < limit {
      TailFrom(lines, plan, q, limit, q + 1);
      SilentChunk(lines, plan, q);
      SeenStays(lines, q);
      forall x | x in Chunk(lines, plan, q) && x.Header? ensures !(x.isArray && TunnelName(x.name)) {
        assert x in Added(plan, q);
      }
      SeenAfter(PlaceAt(lines, q), Chunk(lines, plan, q));
    } else if q < |lines| {
      TailAtHead(lines, plan, q);
    }
  }

  lemma TailAtHead(lines: seq<Line>, plan: Plan, q: nat)
    requires PlanOk(lines, plan) && q < |lines| && TunnelHead(lines[q])
    ensures After(PlaceAt(lines, q), Chunk(lines, plan, q)) == PlaceAt(lines, q + 1)
  {
    hide PlanOk;
    TunnelHeadStays(lines, plan, q);
    var s, h := PlaceAt(lines, q), lines[q];
    ReadsApart(s, Added(plan, q), [h]);
    ReadsOne(After(s, Added(plan, q)), h);
  }

  // The place after the lines added, then after the line kept.
  lemma ChunkInStep(lines: seq<Line>, plan: Plan, i: nat)
    requires WellFormed(lines) && PlanOk(lines, plan) && i < |lines|
    ensures InStep(lines, plan, i)
  {
    hide WellFormed, Quiet, Tail, Dead, Plain;
    if i in plan.before && !Plain(plan.before[i]) {
      TailInStep(lines, plan, i);
    } else if i in plan.before && !PlaceAt(lines, i).Table? {
      TailInStep(lines, plan, i);
    } else {
      var s := PlaceAt(lines, i);
      if i in plan.before {
        PlainKeeps(s, plan.before[i]);
      }
      ReadsApart(s, Added(plan, i), Kept(lines, plan, i));
      assert After(s, Added(plan, i)) == s;
      if i in plan.drop && lines[i].Header? {
        HeaderDropped(lines, plan, i);
        DeadIsQuiet(lines, plan, i);
        NotATunnel(lines, plan, i);
        SeenStays(lines, i);
      } else {
        KeptKeeps(lines, plan, i);
      }
    }
  }

  lemma NotATunnel(lines: seq<Line>, plan: Plan, x: nat)
    requires Dead(lines, plan, x)
    ensures !TunnelHead(lines[x])
  {
  }

  lemma KeptKeeps(lines: seq<Line>, plan: Plan, i: nat)
    requires PlanOk(lines, plan) && i < |lines|
    requires !(i in plan.drop && lines[i].Header?)
    ensures After(PlaceAt(lines, i), Kept(lines, plan, i)) == PlaceAt(lines, i + 1)
  {
    var s := PlaceAt(lines, i);
    if i !in plan.drop {
      ReadsOne(s, Kept(lines, plan, i)[0]);
      assert i in plan.put ==> IsSetting(lines, i);
    }
  }

  /** The edited file says what its chunks say, each read where it stood in the original. */
  lemma PlanReads(lines: seq<Line>, plan: Plan)
    requires WellFormed(lines) && PlanOk(lines, plan)
    ensures Reads(ROOT, OutFrom(lines, plan, 0)) == Flat(lines, plan, 0)
  {
    forall j | 0 <= j <= |lines| ensures InStep(lines, plan, j) {
      if j < |lines| {
        ChunkInStep(lines, plan, j);
      }
    }
    Assembled(lines, plan, 0, ROOT);
  }

  // ---- What is kept ----

  // What is said by the lines kept does not depend on the lines added before them.
  lemma KeptReads(lines: seq<Line>, plan: Plan, i: nat)
    requires PlanOk(lines, plan) && i <= |lines|
    ensures Reads(After(PlaceAt(lines, i), Added(plan, i)), Kept(lines, plan, i))
         == Reads(PlaceAt(lines, i), Kept(lines, plan, i))
    ensures HeldOf(Reads(PlaceAt(lines, i), Added(plan, i))) == [] && Notes(Added(plan, i)) == []
  {
    hide Tail, Reads, HeldOf, Notes, Kept, After, Plain, Dead;
    var s := PlaceAt(lines, i);
    if i !in plan.before {
      Nothing(s);
    } else if PlaceAt(lines, i).Table? && Plain(plan.before[i]) {
      PlainKeeps(s, plan.before[i]);
    } else {
      AddedSeen(lines, plan, i);
      TailKept(lines, plan, i, After(s, Added(plan, i)));
    }
  }

  lemma AddedSeen(lines: seq<Line>, plan: Plan, i: nat)
    requires i <= |lines| && forall x :: x in Added(plan, i) ==> !TunnelHead(x)
    ensures Seen(After(PlaceAt(lines, i), Added(plan, i))) == Seen(PlaceAt(lines, i))
  {
    hide After, Seen;
    SeenAfter(PlaceAt(lines, i), Added(plan, i));
  }

  lemma Nothing(s: Place)
    ensures Reads(s, []) == [] && After(s, []) == s && HeldOf([]) == [] && Notes([]) == []
  {
  }

  lemma TailKept(lines: seq<Line>, plan: Plan, i: nat, o: Place)
    requires PlanOk(lines, plan) && i <= |lines| && Tail(lines, plan, i) && Seen(o) == Seen(PlaceAt(lines, i))
    ensures Reads(o, Kept(lines, plan, i)) == Reads(PlaceAt(lines, i), Kept(lines, plan, i))
  {
    hide Reads, PlanOk;
    var s := PlaceAt(lines, i);
    var limit: nat :| TailTo(lines, plan, i, limit);
    if i < limit {
      SilentChunk(lines, plan, i);
      MuteSays(o, Kept(lines, plan, i));
      MuteSays(s, Kept(lines, plan, i));
    } else if i < |lines| {
      TunnelHeadStays(lines, plan, i);
      SettledReads(lines, i, o);
    } else {
      KeptNone(lines, plan);
      ReadsNothing(o);
      ReadsNothing(s);
    }
  }

  lemma KeptHolds(lines: seq<Line>, plan: Plan, i: nat)
    requires PlanOk(lines, plan) && i < |lines|
    ensures HeldOf(Reads(PlaceAt(lines, i), Kept(lines, plan, i))) == HeldOf(ReadOne(PlaceAt(lines, i), lines[i]))
    ensures Notes(Kept(lines, plan, i)) == Notes([lines[i]])
  {
    hide PlanOk, HeldOf, Reads, ReadOne, Notes, Dead, Next;
    var s := PlaceAt(lines, i);
    Nothing(s);
    if i in plan.drop {
      DroppedHolds(lines, plan, i);
    } else {
      var x := Kept(lines, plan, i)[0];
      ReadsOne(s, x);
      if x != lines[i] {
        PutHolds(lines, plan, i);
      }
    }
  }

  lemma DroppedHolds(lines: seq<Line>, plan: Plan, i: nat)
    requires PlanOk(lines, plan) && i < |lines| && i in plan.drop
    ensures HeldOf(ReadOne(PlaceAt(lines, i), lines[i])) == [] && Notes([lines[i]]) == []
  {
    assert lines[i].Blank? || IsSetting(lines, i) || (lines[i].Header? && PlaceAt(lines, i + 1).Table?);
  }

  lemma PutHolds(lines: seq<Line>, plan: Plan, i: nat)
    requires PlanOk(lines, plan) && i < |lines| && i in plan.put
    ensures HeldOf(ReadOne(PlaceAt(lines, i), lines[i])) == [] && Notes([lines[i]]) == []
    ensures HeldOf(ReadOne(PlaceAt(lines, i), plan.put[i])) == [] && Notes([plan.put[i]]) == []
  {
    hide HeldOf, ReadOne, Notes, Next, Dead, PlaceAt;
    assert IsSetting(lines, i) && plan.put[i].Entry?;
    SettingHolds(PlaceAt(lines, i), lines[i]);
    SettingHolds(PlaceAt(lines, i), plan.put[i]);
  }

  lemma SettingHolds(s: Place, x: Line)
    requires s.Table? && x.Entry?
    ensures HeldOf(ReadOne(s, x)) == [] && Notes([x]) == []
  {
    assert ReadOne(s, x)[1..] == [] && [x][1..] == [];
  }

  // Each chunk holds the tunnel lines and comments of its line, no more and no less.
  lemma ChunkHolds(lines: seq<Line>, plan: Plan, i: nat)
    requires PlanOk(lines, plan) && i <= |lines|
    ensures HeldOf(Reads(PlaceAt(lines, i), Chunk(lines, plan, i)))
         == (if i < |lines| then HeldOf(ReadOne(PlaceAt(lines, i), lines[i])) else [])
    ensures Notes(Chunk(lines, plan, i)) == if i < |lines| then Notes([lines[i]]) else []
  {
    hide PlanOk, Reads, HeldOf, Notes, Kept, Added, ReadOne, After;
    var s, a, k := PlaceAt(lines, i), Added(plan, i), Kept(lines, plan, i);
    ReadsApart(s, a, k);
    KeptReads(lines, plan, i);
    HeldApart(Reads(s, a), Reads(s, k));
    NotesApart(a, k);
    if i < |lines| {
      KeptHolds(lines, plan, i);
    } else {
      assert k == [] by { KeptNone(lines, plan); }
      Nothing(s);
    }
  }

  lemma KeptNone(lines: seq<Line>, plan: Plan)
    ensures Kept(lines, plan, |lines|) == []
  {
  }

  lemma {:induction false} FlatHolds(lines: seq<Line>, plan: Plan, i: nat)
    requires PlanOk(lines, plan) && i <= |lines|
    ensures HeldOf(Flat(lines, plan, i)) == HeldOf(FactsFrom(lines, i))
    decreases |lines| - i
  {
    hide PlanOk, Reads, HeldOf, Chunk, ReadOne;
    ChunkHolds(lines, plan, i);
    HeldApart(Reads(PlaceAt(lines, i), Chunk(lines, plan, i)), Flat(lines, plan, i + 1));
    if i < |lines| {
      FlatHolds(lines, plan, i + 1);
      HeldApart(ReadOne(PlaceAt(lines, i), lines[i]), FactsFrom(lines, i + 1));
    } else {
      Nothing(PlaceAt(lines, i));
    }
  }

  lemma FirstLine(lines: seq<Line>, i: nat)
    requires i < |lines|
    ensures lines[i..] == [lines[i]] + lines[i + 1..]
  {
  }

  lemma {:induction false} NotesFrom(lines: seq<Line>, plan: Plan, i: nat)
    requires PlanOk(lines, plan) && i <= |lines|
    ensures Notes(OutFrom(lines, plan, i)) == Notes(lines[i..])
    decreases |lines| - i
  {
    hide PlanOk, Notes, Chunk, PlaceAt;
    ChunkHolds(lines, plan, i);
    NotesApart(Chunk(lines, plan, i), OutFrom(lines, plan, i + 1));
    if i < |lines| {
      NotesFrom(lines, plan, i + 1);
      FirstLine(lines, i);
      NotesApart([lines[i]], lines[i + 1..]);
    } else {
      Nothing(ROOT);
      assert lines[i..] == [];
      assert OutFrom(lines, plan, i + 1) == [];
    }
  }

  /** No edit touches a tunnel, another array of tables, or a comment. */
  lemma PlanHolds(lines: seq<Line>, plan: Plan)
    requires WellFormed(lines) && PlanOk(lines, plan)
    ensures HeldLines(OutFrom(lines, plan, 0)) == HeldLines(lines)
    ensures Notes(OutFrom(lines, plan, 0)) == Notes(lines)
  {
    hide PlanOk, Notes, HeldOf;
    PlanReads(lines, plan);
    FactsAreReads(lines);
    FlatHolds(lines, plan, 0);
    NotesFrom(lines, plan, 0);
    assert lines[0..] == lines;
  }

  // ---- What is said ----

  ghost predicate AddedSays(lines: seq<Line>, plan: Plan, q: nat, p: Path, v: string) {
    q <= |lines| && q in plan.before && Says(Reads(PlaceAt(lines, q), plan.before[q]), p, v)
  }

  ghost predicate KeptSays(lines: seq<Line>, plan: Plan, j: nat, p: Path, v: string)
    requires PlanOk(lines, plan)
  {
    IsSetting(lines, j) && j !in plan.drop && RawSays(FullKey(lines, j), NewRaw(lines, plan, j), p, v)
  }

  lemma KeptTells(lines: seq<Line>, plan: Plan, i: nat, p: Path, v: string)
    requires PlanOk(lines, plan) && i < |lines|
    ensures Says(Reads(PlaceAt(lines, i), Kept(lines, plan, i)), p, v) <==> KeptSays(lines, plan, i, p, v)
  {
    hide RawSays, Dead;
    var s := PlaceAt(lines, i);
    assert i in plan.put ==> IsSetting(lines, i);
    if i !in plan.drop {
      ReadsOne(s, Kept(lines, plan, i)[0]);
      if IsSetting(lines, i) {
        assert Bind(FullKey(lines, i), NewRaw(lines, plan, i), Kept(lines, plan, i)[0].eol) in Reads(s, Kept(lines, plan, i));
      }
    }
  }

  lemma ChunkSays(lines: seq<Line>, plan: Plan, i: nat, p: Path, v: string)
    requires PlanOk(lines, plan) && i <= |lines|
    ensures Says(Reads(PlaceAt(lines, i), Chunk(lines, plan, i)), p, v)
       <==> AddedSays(lines, plan, i, p, v) || KeptSays(lines, plan, i, p, v)
  {
    hide PlanOk, Reads, Kept, After, Says, KeptSays, PlaceAt;
    var s, a, k := PlaceAt(lines, i), Added(plan, i), Kept(lines, plan, i);
    ReadsApart(s, a, k);
    KeptReads(lines, plan, i);
    SaysApart(Reads(s, a), Reads(s, k), p, v);
    if i < |lines| {
      KeptTells(lines, plan, i, p, v);
    } else {
      KeptNone(lines, plan);
      assert !KeptSays(lines, plan, i, p, v) by { NoSettingAtEnd(lines, plan, p, v); }
    }
    NothingSays(s, p, v);
  }

  lemma NoSettingAtEnd(lines: seq<Line>, plan: Plan, p: Path, v: string)
    requires PlanOk(lines, plan)
    ensures !KeptSays(lines, plan, |lines|, p, v)
  {
  }

  lemma NothingSays(s: Place, p: Path, v: string)
    ensures !Says(Reads(s, []), p, v)
  {
  }

  lemma {:induction false} FlatSays(lines: seq<Line>, plan: Plan, i: nat, p: Path, v: string)
    requires PlanOk(lines, plan) && i <= |lines| + 1
    ensures Says(Flat(lines, plan, i), p, v)
       <==> exists j: nat :: i <= j <= |lines| && (AddedSays(lines, plan, j, p, v) || KeptSays(lines, plan, j, p, v))
    decreases |lines| + 1 - i
  {
    hide PlanOk, Reads, Chunk, Says, AddedSays, KeptSays, PlaceAt;
    if i <= |lines| {
      ChunkSays(lines, plan, i, p, v);
      SaysApart(Reads(PlaceAt(lines, i), Chunk(lines, plan, i)), Flat(lines, plan, i + 1), p, v);
      FlatSays(lines, plan, i + 1, p, v);
    } else {
      assert Flat(lines, plan, i) == [];
      assert !Says([], p, v) by { NothingSays(ROOT, p, v); Nothing(ROOT); }
    }
  }

  /** The edited file says what the added lines say and what the settings kept say. */
  lemma PlanSays(lines: seq<Line>, plan: Plan, p: Path, v: string)
    requires WellFormed(lines) && PlanOk(lines, plan)
    ensures Bound(OutFrom(lines, plan, 0), p, v)
       <==> (exists q: nat :: AddedSays(lines, plan, q, p, v)) || (exists j: nat :: KeptSays(lines, plan, j, p, v))
  {
    hide PlanOk, WellFormed, Reads, Says;
    PlanReads(lines, plan);
    FlatSays(lines, plan, 0, p, v);
  }

  // ---- The facts of the edited file ----

  /** The plan keeps the end comment of every line it changes. */
  ghost predicate KeepsEols(lines: seq<Line>, plan: Plan) {
    forall j :: j in plan.put && j < |lines| && lines[j].Entry? && plan.put[j].Entry? ==> plan.put[j].eol == lines[j].eol
  }

  ghost predicate AddedFact(lines: seq<Line>, plan: Plan, q: nat, g: Fact) {
    q <= |lines| && q in plan.before && g in Reads(PlaceAt(lines, q), plan.before[q])
  }

  ghost predicate KeptFact(lines: seq<Line>, plan: Plan, j: nat, g: Fact)
    requires PlanOk(lines, plan)
  {
    IsSetting(lines, j) && j !in plan.drop && g == Bind(FullKey(lines, j), NewRaw(lines, plan, j), lines[j].eol)
  }

  lemma KeptBinds(lines: seq<Line>, plan: Plan, i: nat, g: Fact)
    requires PlanOk(lines, plan) && KeepsEols(lines, plan) && i < |lines| && g.Bind?
    ensures g in Reads(PlaceAt(lines, i), Kept(lines, plan, i)) <==> KeptFact(lines, plan, i, g)
  {
    hide Dead, PlaceAt, Next, AddOk;
    var s := PlaceAt(lines, i);
    assert i in plan.put ==> IsSetting(lines, i);
    Nothing(s);
    if i !in plan.drop {
      ReadsOne(s, Kept(lines, plan, i)[0]);
    }
  }

  lemma ChunkFacts(lines: seq<Line>, plan: Plan, i: nat, g: Fact)
    requires PlanOk(lines, plan) && KeepsEols(lines, plan) && i <= |lines| && g.Bind?
    ensures g in Reads(PlaceAt(lines, i), Chunk(lines, plan, i)) <==> AddedFact(lines, plan, i, g) || KeptFact(lines, plan, i, g)
  {
    hide PlanOk, KeepsEols, Reads, Kept, After, PlaceAt, KeptFact;
    var s, a, k := PlaceAt(lines, i), Added(plan, i), Kept(lines, plan, i);
    ReadsApart(s, a, k);
    KeptReads(lines, plan, i);
    Nothing(s);
    if i < |lines| {
      KeptBinds(lines, plan, i, g);
    } else {
      KeptNone(lines, plan);
      NoKeptFact(lines, plan, g);
    }
  }

  lemma NoKeptFact(lines: seq<Line>, plan: Plan, g: Fact)
    requires PlanOk(lines, plan)
    ensures !KeptFact(lines, plan, |lines|, g)
  {
  }

  lemma {:induction false} FlatFacts(lines: seq<Line>, plan: Plan, i: nat, g: Fact)
    requires PlanOk(lines, plan) && KeepsEols(lines, plan) && i <= |lines| + 1 && g.Bind?
    ensures g in Flat(lines, plan, i)
       <==> exists j: nat :: i <= j <= |lines| && (AddedFact(lines, plan, j, g) || KeptFact(lines, plan, j, g))
    decreases |lines| + 1 - i
  {
    hide PlanOk, KeepsEols, Reads, Chunk, AddedFact, KeptFact, PlaceAt;
    if i <= |lines| {
      ChunkFacts(lines, plan, i, g);
      FlatFacts(lines, plan, i + 1, g);
    }
  }

  /** The settings of the edited file: those added, and those kept, each under its key, with its end
      comment and with its text or the one put in its place. */
  lemma PlanFacts(lines: seq<Line>, plan: Plan, g: Fact)
    requires WellFormed(lines) && PlanOk(lines, plan) && KeepsEols(lines, plan) && g.Bind?
    ensures g in Reads(ROOT, OutFrom(lines, plan, 0))
       <==> (exists q: nat :: AddedFact(lines, plan, q, g)) || (exists j: nat :: KeptFact(lines, plan, j, g))
  {
    hide PlanOk, KeepsEols, WellFormed, Reads, PlaceAt;
    PlanReads(lines, plan);
    FlatFacts(lines, plan, 0, g);
  }

  // ---- What the keys do not concern ----

  /** The plan drops or changes settings that lead to the keys, and adds settings of the keys. */
  ghost predicate PlanFor(lines: seq<Line>, plan: Plan, keys: set<Path>) {
    && (forall j :: (j in plan.drop || j in plan.put) && IsSetting(lines, j) ==> LeadsTo(FullKey(lines, j), keys))
    && forall q, f :: q in plan.before && q <= |lines| && f in Reads(PlaceAt(lines, q), plan.before[q]) ==> f.Bind? && f.key in keys
  }

  lemma {:induction false} OnlyKeys(facts: seq<Fact>, keys: set<Path>)
    requires forall f :: f in facts ==> f.Bind? && f.key in keys
    ensures Others(facts, keys) == []
  {
    if facts != [] {
      assert facts[0] in facts && facts[0].key <= facts[0].key;
      OnlyKeys(facts[1..], keys);
    }
  }

  lemma KeptOthers(lines: seq<Line>, plan: Plan, i: nat, keys: set<Path>)
    requires PlanOk(lines, plan) && PlanFor(lines, plan, keys) && i < |lines|
    ensures Others(Reads(PlaceAt(lines, i), Kept(lines, plan, i)), keys) == Others(ReadOne(PlaceAt(lines, i), lines[i]), keys)
  {
    hide PlanOk, Reads, ReadOne, Others, Dead, Next, PlaceAt, LeadsTo;
    var s := PlaceAt(lines, i);
    Nothing(s);
    NoOthers(keys);
    if i in plan.drop {
      DroppedOthers(lines, plan, i, keys);
    } else {
      var x := Kept(lines, plan, i)[0];
      ReadsOne(s, x);
      if x != lines[i] {
        ChangedOthers(lines, plan, i, keys);
      }
    }
  }

  lemma NoOthers(keys: set<Path>)
    ensures Others([], keys) == []
  {
  }

  lemma SettingOthers(place: Place, x: Line, keys: set<Path>)
    requires place.Table? && x.Entry? && LeadsTo(place.path + x.key, keys)
    ensures Others(ReadOne(place, x), keys) == []
  {
    hide LeadsTo;
    assert ReadOne(place, x)[1..] == [];
  }

  lemma DroppedOthers(lines: seq<Line>, plan: Plan, i: nat, keys: set<Path>)
    requires PlanOk(lines, plan) && PlanFor(lines, plan, keys) && i < |lines| && i in plan.drop
    ensures Others(ReadOne(PlaceAt(lines, i), lines[i]), keys) == []
  {
    hide LeadsTo, Others, DeadTo;
    NoOthers(keys);
    if IsSetting(lines, i) {
      SettingOthers(PlaceAt(lines, i), lines[i], keys);
    } else {
      assert lines[i].Blank? || (lines[i].Header? && PlaceAt(lines, i + 1).Table?);
    }
  }

  lemma ChangedOthers(lines: seq<Line>, plan: Plan, i: nat, keys: set<Path>)
    requires PlanOk(lines, plan) && PlanFor(lines, plan, keys) && i < |lines| && i in plan.put
    ensures Others(ReadOne(PlaceAt(lines, i), lines[i]), keys) == [] == Others(ReadOne(PlaceAt(lines, i), plan.put[i]), keys)
  {
    hide LeadsTo, Others, ReadOne, Dead, PlaceAt;
    assert IsSetting(lines, i) && plan.put[i].Entry? && plan.put[i].key == lines[i].key;
    SettingOthers(PlaceAt(lines, i), lines[i], keys);
    SettingOthers(PlaceAt(lines, i), plan.put[i], keys);
  }

  lemma ChunkOthers(lines: seq<Line>, plan: Plan, i: nat, keys: set<Path>)
    requires PlanOk(lines, plan) && PlanFor(lines, plan, keys) && i <= |lines|
    ensures Others(Reads(PlaceAt(lines, i), Chunk(lines, plan, i)), keys)
         == if i < |lines| then Others(ReadOne(PlaceAt(lines, i), lines[i]), keys) else []
  {
    hide PlanOk, Reads, Others, Kept, ReadOne, After, PlaceAt;
    var s, a, k := PlaceAt(lines, i), Added(plan, i), Kept(lines, plan, i);
    ReadsApart(s, a, k);
    KeptReads(lines, plan, i);
    OthersApart(Reads(s, a), Reads(s, k), keys);
    Nothing(s);
    OnlyKeys(Reads(s, a), keys);
    if i < |lines| {
      KeptOthers(lines, plan, i, keys);
    } else {
      KeptNone(lines, plan);
      NoOthers(keys);
    }
  }

  lemma {:induction false} FlatOthers(lines: seq<Line>, plan: Plan, i: nat, keys: set<Path>)
    requires PlanOk(lines, plan) && PlanFor(lines, plan, keys) && i <= |lines|
    ensures Others(Flat(lines, plan, i), keys) == Others(FactsFrom(lines, i), keys)
    decreases |lines| - i
  {
    hide PlanOk, PlanFor, Reads, Others, Chunk, ReadOne, PlaceAt;
    ChunkOthers(lines, plan, i, keys);
    OthersApart(Reads(PlaceAt(lines, i), Chunk(lines, plan, i)), Flat(lines, plan, i + 1), keys);
    if i < |lines| {
      FlatOthers(lines, plan, i + 1, keys);
      OthersApart(ReadOne(PlaceAt(lines, i), lines[i]), FactsFrom(lines, i + 1), keys);
    } else {
      NoOthers(keys);
    }
  }

  /** Everything that the keys do not concern stays as it is written, in order. */
  lemma PlanOthers(lines: seq<Line>, plan: Plan, keys: set<Path>)
    requires WellFormed(lines) && PlanOk(lines, plan) && PlanFor(lines, plan, keys)
    ensures OtherFacts(OutFrom(lines, plan, 0), keys) == OtherFacts(lines, keys)
  {
    hide PlanOk, PlanFor, WellFormed, Others;
    PlanReads(lines, plan);
    FactsAreReads(lines);
    FlatOthers(lines, plan, 0, keys);
  }
}
