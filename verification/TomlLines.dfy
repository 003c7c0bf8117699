/** A configuration file as lines, and what it means: the settings of its tables, in order, and the
    lines that belong to tunnels or to other arrays of tables. A sub-table of a tunnel belongs to the
    tunnel, even when other tables stand between them. */
module TomlLines {
  import opened InlineTables
  import opened TomlStrings
  import opened InlineValues

  /** One element of a file. An entry counts as one element, however many lines its value spans. */
  datatype Line =
    | Blank(spaces: string)
    | Note(text: string)
    | Header(name: Path, isArray: bool)
    | Entry(key: Path, raw: string, eol: string)

  /** Where an entry is read: in a table ([] is the root), in an unknown array, in a tunnel.
      after: a tunnel stands before. */
  datatype Place = Table(path: Path, after: bool) | Array(after: bool) | Block

  const ROOT := Table([], false)

  predicate Seen(place: Place) {
    place.Block? || place.after
  }

  /** What a file says: a setting under its full key, or a line kept by a tunnel or an array. */
  datatype Fact = Bind(key: Path, raw: string, eol: string) | Held(line: Line)

  predicate TunnelName(name: Path) {
    name == ["proxies"] || name == ["visitors"]
  }

  predicate TunnelPart(name: Path) {
    |name| > 1 && TunnelName(name[..1])
  }

  function Next(place: Place, line: Line): Place {
    if !line.Header? then place
    else if line.isArray && TunnelName(line.name) then Block
    else if Seen(place) && TunnelPart(line.name) then Block
    else if line.isArray then Array(Seen(place))
    else Table(line.name, Seen(place))
  }

  function ReadOne(place: Place, line: Line): seq<Fact> {
    match line
    case Entry(key, raw, eol) => if place.Table? then [Bind(place.path + key, raw, eol)] else [Held(line)]
    case Header(_, _) => if Next(place, line).Table? then [] else [Held(line)]
    case _ => []
  }

  function Reads(place: Place, lines: seq<Line>): seq<Fact>
    decreases lines
  {
    if lines == [] then [] else ReadOne(place, lines[0]) + Reads(Next(place, lines[0]), lines[1..])
  }

  function After(place: Place, lines: seq<Line>): Place
    decreases lines
  {
    if lines == [] then place else After(Next(place, lines[0]), lines[1..])
  }

  function PlaceAt(lines: seq<Line>, i: nat): Place
    requires i <= |lines|
  {
    if i == 0 then ROOT else Next(PlaceAt(lines, i - 1), lines[i - 1])
  }

  /** The facts hold value `v` at the full key `p`. */
  ghost predicate Says(facts: seq<Fact>, p: Path, v: string) {
    exists f :: f in facts && Tells(f, p, v)
  }

  ghost predicate Tells(f: Fact, p: Path, v: string) {
    f.Bind? && RawSays(f.key, f.raw, p, v)
  }

  /** The file holds value `v` at the full key `p`. */
  ghost predicate Bound(lines: seq<Line>, p: Path, v: string) {
    Says(Reads(ROOT, lines), p, v)
  }

  /** The lines of tunnels and other arrays of tables. */
  function HeldOf(facts: seq<Fact>): seq<Line> {
    if facts == [] then []
    else (if facts[0].Held? then [facts[0].line] else []) + HeldOf(facts[1..])
  }

  /** The key is one of the given ones, or above one of them. */
  predicate LeadsTo(k: Path, keys: set<Path>) {
    exists t :: t in keys && k <= t
  }

  /** The facts that the given keys do not concern, values and end comments as they are written. */
  function Others(facts: seq<Fact>, keys: set<Path>): seq<Fact> {
    if facts == [] then []
    else (if facts[0].Bind? && LeadsTo(facts[0].key, keys) then [] else [facts[0]]) + Others(facts[1..], keys)
  }

  function OtherFacts(lines: seq<Line>, keys: set<Path>): seq<Fact> {
    Others(Reads(ROOT, lines), keys)
  }

  function HeldLines(lines: seq<Line>): seq<Line> {
    HeldOf(Reads(ROOT, lines))
  }

  function Notes(lines: seq<Line>): seq<Line> {
    if lines == [] then []
    else (if lines[0].Note? then [lines[0]] else []) + Notes(lines[1..])
  }

  // ---- Reading a file cut in two ----

  lemma Cut<T>(a: seq<T>, b: seq<T>)
    requires a != []
    ensures (a + b)[0] == a[0] && (a + b)[1..] == a[1..] + b
  {
  }

  lemma Joins<T>(a: seq<T>, b: seq<T>, c: seq<T>)
    ensures a + (b + c) == (a + b) + c
  {
  }

  lemma {:induction false} ReadsApart(place: Place, a: seq<Line>, b: seq<Line>)
    ensures Reads(place, a + b) == Reads(place, a) + Reads(After(place, a), b)
    ensures After(place, a + b) == After(After(place, a), b)
    decreases a
  {
    hide ReadOne, Next;
    if a == [] {
      assert a + b == b;
    } else {
      Cut(a, b);
      var next := Next(place, a[0]);
      ReadsApart(next, a[1..], b);
      Joins(ReadOne(place, a[0]), Reads(next, a[1..]), Reads(After(next, a[1..]), b));
    }
  }

  lemma ReadsOne(place: Place, x: Line)
    ensures Reads(place, [x]) == ReadOne(place, x) && After(place, [x]) == Next(place, x)
  {
    assert [x][1..] == [];
  }

  lemma {:induction false} HeldApart(a: seq<Fact>, b: seq<Fact>)
    ensures HeldOf(a + b) == HeldOf(a) + HeldOf(b)
  {
    if a == [] {
      assert a + b == b;
    } else {
      Cut(a, b);
      HeldApart(a[1..], b);
      Joins(if a[0].Held? then [a[0].line] else [], HeldOf(a[1..]), HeldOf(b));
    }
  }

  lemma {:induction false} OthersApart(a: seq<Fact>, b: seq<Fact>, keys: set<Path>)
    ensures Others(a + b, keys) == Others(a, keys) + Others(b, keys)
  {
    hide LeadsTo;
    if a == [] {
      assert a + b == b;
    } else {
      Cut(a, b);
      OthersApart(a[1..], b, keys);
      var head := if a[0].Bind? && LeadsTo(a[0].key, keys) then [] else [a[0]];
      Joins(head, Others(a[1..], keys), Others(b, keys));
    }
  }

  lemma {:induction false} NotesApart(a: seq<Line>, b: seq<Line>)
    ensures Notes(a + b) == Notes(a) + Notes(b)
  {
    if a == [] {
      assert a + b == b;
    } else {
      Cut(a, b);
      NotesApart(a[1..], b);
      Joins(if a[0].Note? then [a[0]] else [], Notes(a[1..]), Notes(b));
    }
  }

  lemma SaysApart(a: seq<Fact>, b: seq<Fact>, p: Path, v: string)
    ensures Says(a + b, p, v) <==> Says(a, p, v) || Says(b, p, v)
  {
    if Says(a, p, v) {
      var f :| f in a && Tells(f, p, v);
      assert f in a + b;
    }
    if Says(b, p, v) {
      var f :| f in b && Tells(f, p, v);
      assert f in a + b;
    }
  }

  // ---- Tunnels seen ----

  /** Only the head of a tunnel changes whether one was seen, and a header is read by that alone. */
  lemma SeenNext(place: Place, other: Place, line: Line)
    ensures Seen(Next(place, line)) == (Seen(place) || (line.Header? && line.isArray && TunnelName(line.name)))
    ensures line.Header? && Seen(place) == Seen(other) ==> Next(place, line) == Next(other, line)
  {
  }

  lemma {:induction false} SeenAfter(place: Place, lines: seq<Line>)
    requires forall x :: x in lines && x.Header? ==> !(x.isArray && TunnelName(x.name))
    ensures Seen(After(place, lines)) == Seen(place)
    decreases lines
  {
    if lines != [] {
      assert lines[0] in lines;
      SeenNext(place, place, lines[0]);
      SeenAfter(Next(place, lines[0]), lines[1..]);
    }
  }

  // ---- Lines that leave the place alone ----

  predicate Plain(lines: seq<Line>) {
    forall x :: x in lines ==> !x.Header? && !x.Note?
  }

  lemma {:induction false} PlainKeeps(place: Place, lines: seq<Line>)
    requires Plain(lines)
    ensures After(place, lines) == place && Notes(lines) == []
    ensures forall f :: f in Reads(place, lines) <==> exists x :: x in lines && f in ReadOne(place, x)
    ensures place.Table? ==> HeldOf(Reads(place, lines)) == []
  {
    if lines != [] {
      var x, rest := lines[0], lines[1..];
      assert lines == [x] + rest;
      PlainKeeps(place, rest);
      HeldApart(ReadOne(place, x), Reads(place, rest));
      forall f ensures f in Reads(place, lines) <==> exists x :: x in lines && f in ReadOne(place, x) {
        if f in ReadOne(place, x) {
          assert x in lines;
        }
      }
    }
  }

  // ---- Well-formed files ----

  predicate IsSetting(lines: seq<Line>, i: nat) {
    i < |lines| && lines[i].Entry? && PlaceAt(lines, i).Table?
  }

  function FullKey(lines: seq<Line>, i: nat): Path
    requires IsSetting(lines, i)
  {
    PlaceAt(lines, i).path + lines[i].key
  }

  /** Keys and names of tables are not empty, no key is repeated or above another, and a value that
      opens an inline table is the text of one. */
  ghost predicate WellFormed(lines: seq<Line>) {
    && (forall i :: 0 <= i < |lines| && lines[i].Header? ==> lines[i].name != [])
    && (forall i: nat :: IsSetting(lines, i) ==> lines[i].key != [] && ValueOk(lines[i].raw))
    && forall i: nat, j: nat :: IsSetting(lines, i) && IsSetting(lines, j) && i != j ==>
         !Comparable(FullKey(lines, i), FullKey(lines, j))
  }

  /** Facts line by line. */
  function FactsFrom(lines: seq<Line>, i: nat): seq<Fact>
    requires i <= |lines|
    decreases |lines| - i
  {
    if i == |lines| then [] else ReadOne(PlaceAt(lines, i), lines[i]) + FactsFrom(lines, i + 1)
  }

  lemma {:induction false} ReadsFrom(lines: seq<Line>, i: nat)
    requires i <= |lines|
    ensures Reads(PlaceAt(lines, i), lines[i..]) == FactsFrom(lines, i)
    decreases |lines| - i
  {
    if i < |lines| {
      assert lines[i..][0] == lines[i] && lines[i..][1..] == lines[i + 1..];
      ReadsFrom(lines, i + 1);
    }
  }

  lemma FactsAreReads(lines: seq<Line>)
    ensures Reads(ROOT, lines) == FactsFrom(lines, 0)
  {
    ReadsFrom(lines, 0);
    assert lines[0..] == lines;
  }

  ghost predicate FactAt(lines: seq<Line>, j: nat, f: Fact) {
    j < |lines| && f in ReadOne(PlaceAt(lines, j), lines[j])
  }

  lemma FactNext(lines: seq<Line>, i: nat, f: Fact)
    requires i < |lines|
    ensures f in FactsFrom(lines, i) <==> FactAt(lines, i, f) || f in FactsFrom(lines, i + 1)
  {
    hide PlaceAt, ReadOne;
  }

  lemma {:induction false} FactHasLine(lines: seq<Line>, i: nat, f: Fact)
    requires i <= |lines|
    ensures f in FactsFrom(lines, i) <==> exists j: nat :: i <= j && FactAt(lines, j, f)
    decreases |lines| - i
  {
    hide FactsFrom, FactAt;
    if i < |lines| {
      FactNext(lines, i, f);
      FactHasLine(lines, i + 1, f);
    } else {
      NoFactLeft(lines, f);
    }
  }

  lemma NoFactLeft(lines: seq<Line>, f: Fact)
    ensures f !in FactsFrom(lines, |lines|) && forall j: nat :: j >= |lines| ==> !FactAt(lines, j, f)
  {
    hide ReadOne, PlaceAt;
  }

  /** A file holds what one of its settings holds. */
  lemma BoundBySetting(lines: seq<Line>, p: Path, v: string)
    ensures Bound(lines, p, v) <==>
            exists j: nat :: IsSetting(lines, j) && RawSays(FullKey(lines, j), lines[j].raw, p, v)
  {
    hide FactsFrom, Reads, RawSays, PlaceAt;
    FactsAreReads(lines);
    var facts := FactsFrom(lines, 0);
    if Says(facts, p, v) {
      var f :| f in facts && Tells(f, p, v);
      FactHasLine(lines, 0, f);
      var j: nat :| FactAt(lines, j, f);
      assert IsSetting(lines, j) && f == Bind(FullKey(lines, j), lines[j].raw, lines[j].eol);
    }
    if j: nat :| IsSetting(lines, j) && RawSays(FullKey(lines, j), lines[j].raw, p, v) {
      var f := Bind(FullKey(lines, j), lines[j].raw, lines[j].eol);
      assert FactAt(lines, j, f);
      FactHasLine(lines, 0, f);
      assert Tells(f, p, v);
    }
  }
}
