/** Community lists: the robot that reviews a submitted list, and the panel that reads it. */
module Blocklists {
  import opened Wrappers
  import opened Cidr
  import opened NetAddr

  const MAX_SOURCES := 20000
  const MAX_ASNS := 50

  datatype Network = Network(is4: bool, prefix: Prefix)

  /** Reader and printer of networks. */
  datatype Library = Library(parse: string -> Option<Network>, print_: Network -> string)

  /** Networks read are within their family, and printing one and reading it again gives it back. */
  ghost predicate Sound(lib: Library) {
    forall t :: lib.parse(t).Some? ==>
                  && Valid(Width(lib.parse(t).value.is4), lib.parse(t).value.prefix)
                  && lib.parse(lib.print_(lib.parse(t).value)) == lib.parse(t)
  }

  // ---- Texts ----

  predicate IsSpace(c: char) {
    c in " \t\n\r\U{B}\U{C}\U{85}\U{A0}\U{1680}\U{2028}\U{2029}\U{202F}\U{205F}\U{3000}" || '\U{2000}' <= c <= '\U{200A}'
  }

  function TrimLeft(s: string): string {
    if s != [] && IsSpace(s[0]) then TrimLeft(s[1..]) else s
  }

  function TrimRight(s: string): string {
    if s != [] && IsSpace(s[|s| - 1]) then TrimRight(s[..|s| - 1]) else s
  }

  function Trim(s: string): string {
    TrimRight(TrimLeft(s))
  }

  lemma {:induction false} TrimRightEnds(s: string)
    ensures TrimRight(s) <= s
    ensures TrimRight(s) != [] ==> !IsSpace(TrimRight(s)[|TrimRight(s)| - 1])
    ensures s != [] && !IsSpace(s[0]) ==> TrimRight(s) != []
  {
    if s != [] && IsSpace(s[|s| - 1]) {
      TrimRightEnds(s[..|s| - 1]);
    }
  }

  lemma {:induction false} TrimLeftEnds(s: string)
    ensures TrimLeft(s) != [] ==> !IsSpace(TrimLeft(s)[0])
  {
    if s != [] && IsSpace(s[0]) {
      TrimLeftEnds(s[1..]);
    }
  }

  /** The panel trims twice what the robot trims once. */
  lemma TrimTwice(s: string)
    ensures Trim(Trim(s)) == Trim(s)
  {
    TrimLeftEnds(s);
    TrimRightEnds(TrimLeft(s));
    var t := Trim(s);
    assert t != [] ==> t[0] == TrimLeft(s)[0];
    assert TrimLeft(t) == t;
  }

  /** What precedes the first `#`, and what follows it. */
  function CutNote(s: string): (string, string) {
    if s == [] then ([], [])
    else if s[0] == '#' then ([], s[1..])
    else var (a, b) := CutNote(s[1..]); ([s[0]] + a, b)
  }

  function EntryText(item: string): string {
    Trim(CutNote(item).0)
  }

  ghost predicate AllSpaces(s: string) {
    forall i :: 0 <= i < |s| ==> IsSpace(s[i])
  }

  ghost predicate NoSpaceAround(s: string) {
    s != [] ==> !IsSpace(s[0]) && !IsSpace(s[|s| - 1])
  }

  lemma {:induction false} TrimLeftDrops(s: string) returns (lead: string)
    ensures s == lead + TrimLeft(s) && AllSpaces(lead)
  {
    if s != [] && IsSpace(s[0]) {
      var more := TrimLeftDrops(s[1..]);
      lead := [s[0]] + more;
      assert [s[0]] + (more + TrimLeft(s[1..])) == lead + TrimLeft(s);
    } else {
      lead := [];
    }
  }

  lemma {:induction false} TrimRightDrops(s: string) returns (trail: string)
    ensures s == TrimRight(s) + trail && AllSpaces(trail)
  {
    if s != [] && IsSpace(s[|s| - 1]) {
      var n := |s| - 1;
      var more := TrimRightDrops(s[..n]);
      trail := more + [s[n]];
      assert s == s[..n] + [s[n]];
      assert (TrimRight(s[..n]) + more) + [s[n]] == TrimRight(s[..n]) + trail;
      hide IsSpace;
    } else {
      trail := [];
    }
  }

  /** A trimmed text is the text without the spaces around it. */
  lemma TrimMeans(s: string) returns (lead: string, trail: string)
    ensures s == lead + Trim(s) + trail && AllSpaces(lead) && AllSpaces(trail) && NoSpaceAround(Trim(s))
  {
    lead := TrimLeftDrops(s);
    trail := TrimRightDrops(TrimLeft(s));
    TrimLeftEnds(s);
    TrimRightEnds(TrimLeft(s));
    assert Trim(s) != [] ==> Trim(s)[0] == TrimLeft(s)[0];
  }

  lemma {:induction false} CutAtHash(s: string)
    ensures '#' !in CutNote(s).0
    ensures s == CutNote(s).0 || s == CutNote(s).0 + "#" + CutNote(s).1
    ensures s == CutNote(s).0 ==> CutNote(s).1 == []
  {
    if s != [] && s[0] != '#' {
      CutAtHash(s[1..]);
    }
  }

  /** An entry is its text, spaces around it, and after the first `#`, if there is one, its note with spaces
      around it. */
  lemma EntryParts(item: string) returns (lead: string, trail: string, more: string, last: string)
    ensures var text, note := EntryText(item), Trim(CutNote(item).1);
            && AllSpaces(lead) && AllSpaces(trail) && AllSpaces(more) && AllSpaces(last)
            && NoSpaceAround(text) && NoSpaceAround(note) && '#' !in lead + text + trail
            && ((item == lead + text + trail && note == []) || item == lead + text + trail + "#" + (more + note + last))
  {
    CutAtHash(item);
    lead, trail := TrimMeans(CutNote(item).0);
    more, last := TrimMeans(CutNote(item).1);
  }

  // ---- AS numbers ----

  predicate BlankInRegexp(c: char) {
    c in " \t\n\r\U{C}"
  }

  function SkipBlanks(s: string): string {
    if s != [] && BlankInRegexp(s[0]) then SkipBlanks(s[1..]) else s
  }

  predicate IsDigit(c: char) {
    '0' <= c <= '9'
  }

  function Decimal(s: string): nat {
    if s == [] then 0
    else Decimal(s[..|s| - 1]) * 10 + if IsDigit(s[|s| - 1]) then s[|s| - 1] as int - '0' as int else 0
  }

  /** `AS`, in either case, then one to ten digits. U+017F folds to `s`. */
  function AsnOf(s: string): Option<nat> {
    if |s| < 3 || s[0] !in "Aa" || s[1] !in "Ss\U{17F}" then None
    else
      var digits := SkipBlanks(s[2..]);
      if 1 <= |digits| <= 10 && forall i :: 0 <= i < |digits| ==> IsDigit(digits[i])
      then Some(Decimal(digits)) else None
  }

  lemma {:induction false} BlanksSkipped(blanks: string, rest: string)
    requires forall i :: 0 <= i < |blanks| ==> BlankInRegexp(blanks[i])
    requires rest != [] ==> !BlankInRegexp(rest[0])
    ensures SkipBlanks(blanks + rest) == rest
  {
    if blanks == [] {
      assert blanks + rest == rest;
    } else {
      assert (blanks + rest)[1..] == blanks[1..] + rest;
      BlanksSkipped(blanks[1..], rest);
    }
  }

  /** An AS is read exactly from `as`, blanks or none, and one to ten digits. */
  lemma AsnReads(a: char, b: char, blanks: string, digits: string)
    requires a in "Aa" && b in "Ss\U{17F}"
    requires forall i :: 0 <= i < |blanks| ==> BlankInRegexp(blanks[i])
    requires 1 <= |digits| <= 10 && forall i :: 0 <= i < |digits| ==> IsDigit(digits[i])
    ensures AsnOf([a, b] + blanks + digits) == Some(Decimal(digits))
  {
    hide SkipBlanks, Decimal;
    var s := [a, b] + blanks + digits;
    assert s[2..] == blanks + digits;
    assert IsDigit(digits[0]) && !BlankInRegexp(digits[0]);
    BlanksSkipped(blanks, digits);
  }

  lemma {:induction false} SkipBlanksDrops(s: string) returns (blanks: string)
    ensures s == blanks + SkipBlanks(s) && forall i :: 0 <= i < |blanks| ==> BlankInRegexp(blanks[i])
  {
    if s != [] && BlankInRegexp(s[0]) {
      var more := SkipBlanksDrops(s[1..]);
      blanks := [s[0]] + more;
      assert blanks + SkipBlanks(s) == [s[0]] + (more + SkipBlanks(s[1..]));
    } else {
      blanks := [];
    }
  }

  lemma AsnReadOnlyFrom(s: string) returns (blanks: string, digits: string)
    requires AsnOf(s).Some?
    ensures |s| >= 2 && s[0] in "Aa" && s[1] in "Ss\U{17F}" && s == [s[0], s[1]] + blanks + digits
    ensures forall i :: 0 <= i < |blanks| ==> BlankInRegexp(blanks[i])
    ensures 1 <= |digits| <= 10 && forall i :: 0 <= i < |digits| ==> IsDigit(digits[i])
  {
    blanks := SkipBlanksDrops(s[2..]);
    digits := SkipBlanks(s[2..]);
    assert s == s[..2] + s[2..];
  }

  predicate AsnValid(n: nat) {
    1 <= n <= 4294967295
  }

  // ---- What one entry stands for ----

  datatype Origin = Asn(n: nat) | Net(net: Network)

  predicate WideEnough(n: Network) {
    n.prefix.bits >= if n.is4 then 8 else 16
  }

  /** The source an entry denotes, if it is one. */
  function Denotes(lib: Library, text: string): Option<Origin> {
    match AsnOf(text)
    case Some(n) => if AsnValid(n) then Some(Asn(n)) else None
    case None =>
      match lib.parse(text)
      case Some(net) => Some(Net(net))
      case None => None
  }

  /** Public, and not too wide. */
  predicate Acceptable(o: Origin) {
    match o
    case Asn(_) => true
    case Net(net) => net.prefix.bits <= Width(net.is4) && PrefixIsGlobal(net.is4, net.prefix) && WideEnough(net)
  }

  predicate EntryOk(lib: Library, text: string) {
    Denotes(lib, text).Some? && Acceptable(Denotes(lib, text).value)
  }

  // ---- The robot ----

  datatype Problem =
    | BadMode | LongAuthor | BadId | NoName | LongText | NoEntries | TooMany | TooManyAsns
    | Duplicate(text: string) | BadAsn(text: string) | NotASource(text: string) | NotPublic(text: string) | TooWide(text: string)

  /** A submitted list: its fields as texts, `sources` None when they are no list. */
  datatype Submission = Submission(id: string, name: string, description: string, author: string,
                                   mode: Option<string>, sources: Option<seq<string>>)

  predicate ListIdChar(c: char) {
    'a' <= c <= 'z' || IsDigit(c)
  }

  predicate ValidListId(s: string) {
    1 <= |s| <= 40 && ListIdChar(s[0]) && forall i :: 0 <= i < |s| ==> ListIdChar(s[i]) || s[i] == '-'
  }

  predicate HeaderOk(l: Submission) {
    && (l.mode.Some? ==> l.mode.value == "block" || l.mode.value == "allow")
    && |l.author| <= 40 && ValidListId(l.id) && Trim(l.name) != []
    && |l.name| <= 60 && |l.description| <= 300
  }

  function Texts(items: seq<string>): seq<string> {
    seq(|items|, i requires 0 <= i < |items| => EntryText(items[i]))
  }

  function AsnCount(texts: seq<string>): nat {
    if texts == [] then 0
    else AsnCount(texts[..|texts| - 1]) + if AsnOf(texts[|texts| - 1]).Some? then 1 else 0
  }

  ghost predicate NoRepeat(texts: seq<string>) {
    forall i, j :: 0 <= i < j < |texts| ==> texts[i] != texts[j]
  }

  /** What an accepted list satisfies. */
  ghost predicate ListOk(lib: Library, items: seq<string>) {
    && 0 < |items| <= MAX_SOURCES
    && NoRepeat(Texts(items))
    && AllOk(lib, items)
    && AsnCount(Texts(items)) <= MAX_ASNS
  }

  method EntryProblems(lib: Library, text: string) returns (errs: seq<Problem>, isAsn: bool)
    requires Sound(lib)
    ensures errs == [] <==> EntryOk(lib, text)
    ensures isAsn <==> AsnOf(text).Some?
  {
    errs := [];
    var m := AsnOf(text);
    isAsn := m.Some?;
    if isAsn {
      if !AsnValid(m.value) {
        errs := [BadAsn(text)];
      }
      return;
    }
    var p := lib.parse(text);
    if p.None? {
      return [NotASource(text)], false;
    }
    if !PrefixIsGlobal(p.value.is4, p.value.prefix) {
      errs := [NotPublic(text)];
    } else if !WideEnough(p.value) {
      errs := [TooWide(text)];
    }
  }

  method HeaderProblems(l: Submission) returns (errs: seq<Problem>)
    ensures errs == [] <==> HeaderOk(l)
  {
    errs := [];
    if l.mode.Some? && l.mode.value != "block" && l.mode.value != "allow" {
      errs := errs + [BadMode];
    }
    if |l.author| > 40 {
      errs := errs + [LongAuthor];
    }
    if !ValidListId(l.id) {
      errs := errs + [BadId];
    }
    if Trim(l.name) == [] {
      errs := errs + [NoName];
    }
    if |l.name| > 60 || |l.description| > 300 {
      errs := errs + [LongText];
    }
  }

  // State of the review after some entries.
  ghost predicate Reviewed(lib: Library, items: seq<string>, clean: bool, seen: set<string>, asns: nat) {
    && asns == AsnCount(Texts(items))
    && (forall t :: t in seen <==> t in Texts(items))
    && (clean <==> NoRepeat(Texts(items)) && AllOk(lib, items))
  }

  ghost predicate AllOk(lib: Library, items: seq<string>) {
    forall i :: 0 <= i < |items| ==> EntryOk(lib, EntryText(items[i]))
  }

  lemma CountJoin(items: seq<string>, item: string)
    ensures Texts(items + [item]) == Texts(items) + [EntryText(item)]
    ensures AsnCount(Texts(items + [item])) == AsnCount(Texts(items)) + if AsnOf(EntryText(item)).Some? then 1 else 0
  {
    hide AsnOf, EntryText;
    assert (items + [item])[..|items|] == items;
    assert (Texts(items) + [EntryText(item)])[..|items|] == Texts(items);
  }

  lemma AllOkJoin(lib: Library, items: seq<string>, item: string)
    ensures AllOk(lib, items + [item]) <==> AllOk(lib, items) && EntryOk(lib, EntryText(item))
  {
    hide EntryOk, EntryText;
    var all := items + [item];
    assert all[|items|] == item && forall i :: 0 <= i < |items| ==> all[i] == items[i];
  }

  lemma RepeatStep(texts: seq<string>, text: string)
    ensures NoRepeat(texts + [text]) <==> NoRepeat(texts) && text !in texts
  {
    var all := texts + [text];
    if NoRepeat(all) {
      assert forall i :: 0 <= i < |texts| ==> all[i] == texts[i] && all[i] != all[|texts|];
    }
  }

  lemma ReviewStep(lib: Library, items: seq<string>, item: string, clean: bool, seen: set<string>, asns: nat)
    requires Reviewed(lib, items, clean, seen, asns)
    ensures var text := EntryText(item);
            Reviewed(lib, items + [item], clean && text !in seen && EntryOk(lib, text), seen + {text},
                     asns + if AsnOf(text).Some? then 1 else 0)
  {
    hide AllOk, EntryOk, EntryText, AsnOf, AsnCount, Texts, NoRepeat;
    CountJoin(items, item);
    AllOkJoin(lib, items, item);
    RepeatStep(Texts(items), EntryText(item));
    assert forall t :: t in Texts(items) + [EntryText(item)] <==> t in Texts(items) || t == EntryText(item);
  }

  method EntriesProblems(lib: Library, items: seq<string>) returns (errs: seq<Problem>, asns: nat)
    requires Sound(lib)
    ensures errs == [] <==> NoRepeat(Texts(items)) && AllOk(lib, items)
    ensures asns == AsnCount(Texts(items))
  {
    hide EntryOk, EntryText, AsnOf, Reviewed, AllOk, NoRepeat, Texts, AsnCount;
    errs, asns := [], 0;
    var seen: set<string> := {};
    NothingReviewed(lib);
    for i := 0 to |items|
      invariant Reviewed(lib, items[..i], errs == [], seen, asns)
    {
      var text := EntryText(items[i]);
      ReviewStep(lib, items[..i], items[i], errs == [], seen, asns);
      assert items[..i + 1] == items[..i] + [items[i]];
      if text in seen {
        errs := errs + [Duplicate(text)];
      }
      seen := seen + {text};
      var more, isAsn := EntryProblems(lib, text);
      if isAsn {
        asns := asns + 1;
      }
      errs := errs + more;
    }
    assert items[..|items|] == items;
    ReviewedMeans(lib, items, errs == [], seen, asns);
  }

  lemma NothingReviewed(lib: Library)
    ensures Reviewed(lib, [], true, {}, 0)
  {
  }

  lemma ReviewedMeans(lib: Library, items: seq<string>, clean: bool, seen: set<string>, asns: nat)
    requires Reviewed(lib, items, clean, seen, asns)
    ensures clean <==> NoRepeat(Texts(items)) && AllOk(lib, items)
    ensures asns == AsnCount(Texts(items))
  {
  }

  /** Problems of a submitted list; none exactly when it is acceptable. */
  method CheckList(lib: Library, l: Submission) returns (errs: seq<Problem>)
    requires Sound(lib)
    ensures errs == [] <==> HeaderOk(l) && l.sources.Some? && ListOk(lib, l.sources.value)
  {
    hide HeaderOk, NoRepeat, AllOk, Texts, AsnCount;
    errs := HeaderProblems(l);
    if l.sources.None? || l.sources.value == [] {
      return errs + [NoEntries];
    }
    var items := l.sources.value;
    if |items| > MAX_SOURCES {
      errs := errs + [TooMany];
    }
    var more, asns := EntriesProblems(lib, items);
    errs := errs + more;
    if asns > MAX_ASNS {
      errs := errs + [TooManyAsns];
    }
  }

  // ---- The panel ----

  datatype PanelKey = AsnKey(n: nat) | NetKey(text: string)

  datatype ListSource = ListSource(origin: Origin, note: string)

  datatype Skipped = Skipped(text: string)

  /** What the panel keeps while it reads a list. */
  datatype Reading = Reading(sources: seq<ListSource>, seen: set<PanelKey>, asns: nat, skipped: seq<Skipped>, full: bool)

  const NOTHING_READ := Reading([], {}, 0, [], false)

  function Skip(r: Reading, text: string): Reading {
    r.(skipped := r.skipped + [Skipped(text)])
  }

  function Keep(r: Reading, key: PanelKey, o: Origin, note: string): Reading {
    if key in r.seen then r
    else r.(seen := r.seen + {key}, sources := r.sources + [ListSource(o, note)])
  }

  /** One entry: its source is kept unless another one has the same key. */
  function ReadEntry(lib: Library, r: Reading, item: string): Reading {
    var text := EntryText(item);
    var note := Trim(CutNote(item).1);
    if text == [] then r
    else
      match AsnOf(Trim(text))
      case Some(n) =>
        if !AsnValid(n) || r.asns >= MAX_ASNS then Skip(r, text)
        else Keep(r.(asns := r.asns + 1), AsnKey(n), Asn(n), note)
      case None =>
        match lib.parse(Trim(text))
        case None => Skip(r, text)
        case Some(net) =>
          var cidr := lib.print_(net);
          match lib.parse(cidr)
          case None => Skip(r, text)
          case Some(again) =>
            if again.prefix.bits > Width(again.is4) || !PrefixIsGlobal(again.is4, again.prefix) || !WideEnough(again)
            then Skip(r, text)
            else Keep(r, NetKey(cidr), Net(again), note)
  }

  function ReadList(lib: Library, items: seq<string>): Reading {
    if items == [] then NOTHING_READ
    else
      var r := ReadList(lib, items[..|items| - 1]);
      if r.full then r
      else if |r.sources| >= MAX_SOURCES then Skip(r, "...").(full := true)
      else ReadEntry(lib, r, items[|items| - 1])
  }

  method ListSources(lib: Library, items: seq<string>) returns (sources: seq<ListSource>, skipped: seq<Skipped>)
    ensures sources == ReadList(lib, items).sources && skipped == ReadList(lib, items).skipped
  {
    var r := NOTHING_READ;
    var i := 0;
    while i < |items|
      invariant 0 <= i <= |items| && !r.full
      invariant r == ReadList(lib, items[..i])
    {
      assert items[..i + 1][..i] == items[..i];
      if |r.sources| >= MAX_SOURCES {
        var stopped := Skip(r, "...").(full := true);
        FullStays(lib, items, i + 1);
        return stopped.sources, stopped.skipped;
      }
      r := ReadEntry(lib, r, items[i]);
      i := i + 1;
    }
    assert items[..|items|] == items;
    return r.sources, r.skipped;
  }

  lemma {:induction false} FullStays(lib: Library, items: seq<string>, n: nat)
    requires n <= |items| && ReadList(lib, items[..n]).full
    ensures ReadList(lib, items) == ReadList(lib, items[..n])
    decreases |items|
  {
    if n < |items| {
      assert items[..|items| - 1][..n] == items[..n];
      FullStays(lib, items[..|items| - 1], n);
    } else {
      assert items[..n] == items;
    }
  }

  ghost function Origins(sources: seq<ListSource>): set<Origin> {
    set s | s in sources :: s.origin
  }

  ghost function Denoted(lib: Library, items: seq<string>): set<Option<Origin>> {
    set i | i in items :: Denotes(lib, EntryText(i))
  }

  // The keys seen are those of the sources kept.
  function KeyOf(lib: Library, o: Origin): PanelKey {
    match o
    case Asn(n) => AsnKey(n)
    case Net(net) => NetKey(lib.print_(net))
  }

  /** A list read without a gap: nothing skipped, and the sources are all those denoted. */
  ghost predicate ReadWhole(lib: Library, items: seq<string>, r: Reading) {
    && !r.full && r.skipped == [] && |r.sources| <= |items|
    && r.asns == AsnCount(Texts(items))
    && (forall o :: o in Origins(r.sources) <==> Some(o) in Denoted(lib, items))
    && (forall k :: k in r.seen <==> exists o :: o in Origins(r.sources) && KeyOf(lib, o) == k)
    && (forall o :: o in Origins(r.sources) && o.Net? ==> lib.parse(lib.print_(o.net)) == Some(o.net))
  }

  // A good entry is kept under its own key.
  lemma GoodEntryKept(lib: Library, r: Reading, item: string)
    requires Sound(lib) && lib.parse([]).None?
    requires EntryOk(lib, EntryText(item))
    requires AsnOf(EntryText(item)).Some? ==> r.asns < MAX_ASNS
    ensures var text := EntryText(item);
            var o := Denotes(lib, text).value;
            ReadEntry(lib, r, item)
              == Keep(r.(asns := r.asns + if AsnOf(text).Some? then 1 else 0), KeyOf(lib, o), o, Trim(CutNote(item).1))
    ensures var o := Denotes(lib, EntryText(item)).value;
            o.Net? ==> lib.parse(lib.print_(o.net)) == Some(o.net)
  {
    hide PrefixIsGlobal, Trim, CutNote, AsnOf;
    TrimTwice(CutNote(item).0);
    NoAsnInNothing();
  }

  lemma NoAsnInNothing()
    ensures AsnOf([]).None?
  {
  }

  lemma KeepsWhole(lib: Library, items: seq<string>, item: string, r: Reading, asns: nat, o: Origin, note: string)
    requires ReadWhole(lib, items, r)
    requires Denotes(lib, EntryText(item)) == Some(o)
    requires asns == AsnCount(Texts(items + [item]))
    requires o.Net? ==> lib.parse(lib.print_(o.net)) == Some(o.net)
    ensures ReadWhole(lib, items + [item], Keep(r.(asns := asns), KeyOf(lib, o), o, note))
  {
    hide Denotes, EntryText, AsnCount, Texts;
    var key := KeyOf(lib, o);
    var next := Keep(r.(asns := asns), key, o, note);
    DenotedJoin(lib, items, item);
    if key in r.seen {
      var other :| other in Origins(r.sources) && KeyOf(lib, other) == key;
      assert other == o;
    } else {
      assert Origins(next.sources) == Origins(r.sources) + {o};
    }
  }

  lemma DenotedJoin(lib: Library, items: seq<string>, item: string)
    ensures Denoted(lib, items + [item]) == Denoted(lib, items) + {Denotes(lib, EntryText(item))}
  {
    hide Denotes, EntryText;
    forall d ensures d in Denoted(lib, items + [item]) <==> d in Denoted(lib, items) || d == Denotes(lib, EntryText(item)) {
      assert item in items + [item];
      assert forall i :: i in items + [item] <==> i in items || i == item;
    }
  }

  lemma ReadsEntry(lib: Library, items: seq<string>, item: string, r: Reading)
    requires Sound(lib) && lib.parse([]).None?
    requires ReadWhole(lib, items, r) && r.asns < MAX_ASNS + (if AsnOf(EntryText(item)).Some? then 0 else 1)
    requires EntryOk(lib, EntryText(item))
    ensures ReadWhole(lib, items + [item], ReadEntry(lib, r, item))
  {
    hide ReadEntry, ReadWhole, EntryText, AsnOf, Acceptable, Denotes;
    var o := Denotes(lib, EntryText(item)).value;
    GoodEntryKept(lib, r, item);
    CountJoin(items, item);
    WholeCounts(lib, items, r);
    KeepsWhole(lib, items, item, r, AsnCount(Texts(items + [item])), o, Trim(CutNote(item).1));
  }

  lemma WholeCounts(lib: Library, items: seq<string>, r: Reading)
    requires ReadWhole(lib, items, r)
    ensures r.asns == AsnCount(Texts(items)) && |r.sources| <= |items| && !r.full
  {
  }

  lemma {:induction false} AsnCountMonotone(texts: seq<string>, n: nat)
    requires n <= |texts|
    ensures AsnCount(texts[..n]) <= AsnCount(texts)
    ensures n < |texts| && AsnOf(texts[n]).Some? ==> AsnCount(texts[..n]) < AsnCount(texts)
    decreases |texts|
  {
    if n < |texts| {
      var before := texts[..|texts| - 1];
      assert before[..n] == texts[..n];
      AsnCountMonotone(before, n);
    } else {
      assert texts[..n] == texts;
    }
  }

  lemma {:induction false} ReadsPrefix(lib: Library, items: seq<string>, n: nat)
    requires Sound(lib) && lib.parse([]).None?
    requires ListOk(lib, items) && n <= |items|
    ensures ReadWhole(lib, items[..n], ReadList(lib, items[..n]))
    decreases n
  {
    hide ReadWhole, ReadEntry, EntryOk, EntryText, AsnOf, NoRepeat, AsnCount, Texts;
    if n == 0 {
      NothingRead(lib);
      assert items[..0] == [];
    } else {
      ReadsPrefix(lib, items, n - 1);
      var before := items[..n - 1];
      assert items[..n] == before + [items[n - 1]];
      TextsPrefix(items, n - 1);
      AsnCountMonotone(Texts(items), n - 1);
      WholeCounts(lib, before, ReadList(lib, before));
      ReadsEntry(lib, before, items[n - 1], ReadList(lib, before));
      ReadListStep(lib, before, items[n - 1]);
    }
  }

  lemma NothingRead(lib: Library)
    ensures ReadWhole(lib, [], ReadList(lib, []))
  {
  }

  lemma ReadListStep(lib: Library, items: seq<string>, item: string)
    requires !ReadList(lib, items).full && |ReadList(lib, items).sources| < MAX_SOURCES
    ensures ReadList(lib, items + [item]) == ReadEntry(lib, ReadList(lib, items), item)
  {
    hide ReadEntry;
    assert (items + [item])[..|items|] == items;
  }

  lemma TextsPrefix(items: seq<string>, n: nat)
    requires n <= |items|
    ensures |Texts(items)| == |items| && Texts(items[..n]) == Texts(items)[..n]
    ensures n < |items| ==> Texts(items)[n] == EntryText(items[n])
  {
    hide EntryText;
  }

  /** The two validators agree: a list the robot has nothing against is read whole by the panel,
      which keeps exactly the sources the entries denote, although one looks for repeated texts
      and the other for repeated networks. */
  lemma AcceptedListsAreReadWhole(lib: Library, items: seq<string>)
    requires Sound(lib) && lib.parse([]).None?
    requires ListOk(lib, items)
    ensures ReadList(lib, items).skipped == []
    ensures forall o :: o in Origins(ReadList(lib, items).sources) <==> exists i :: i in items && Denotes(lib, EntryText(i)) == Some(o)
    ensures forall i :: i in items ==> Denotes(lib, EntryText(i)).Some?
  {
    hide EntryText, ReadEntry;
    ReadsPrefix(lib, items, |items|);
    assert items[..|items|] == items;
    forall i | i in items ensures Denotes(lib, EntryText(i)).Some? {
      var k :| 0 <= k < |items| && items[k] == i;
      assert EntryOk(lib, EntryText(items[k]));
    }
  }

  // ---- What the panel keeps of any list ----

  /** The source a text names: an AS number in range, or a public network of at least /8 (/16 in IPv6). */
  ghost predicate Names(lib: Library, text: string, o: Origin) {
    match o
    case Asn(n) => AsnOf(text) == Some(n) && 1 <= n <= 4294967295
    case Net(net) =>
      && AsnOf(text).None? && lib.parse(text) == Some(net)
      && net.prefix.bits <= Width(net.is4) && PrefixIsGlobal(net.is4, net.prefix)
      && net.prefix.bits >= (if net.is4 then 8 else 16)
  }

  /** How many of the entries name an AS. */
  ghost function AsnsNamed(lib: Library, items: seq<string>): nat {
    |AsnPlaces(lib, items)|
  }

  ghost function AsnPlaces(lib: Library, items: seq<string>): set<int> {
    set k | 0 <= k < |items| && NamesAsn(lib, EntryText(items[k]))
  }

  ghost predicate NamesAsn(lib: Library, text: string) {
    exists n :: Names(lib, text, Asn(n))
  }

  /** The i-th entry names the source, and an AS only counts when fewer than fifty entries before it name one. */
  ghost predicate Counts(lib: Library, items: seq<string>, i: int, o: Origin) {
    && 0 <= i < |items| && Names(lib, EntryText(items[i]), o)
    && (o.Asn? ==> AsnsNamed(lib, items[..i]) < 50)
  }

  /** What a reading holds: the sources that count, each once and with the note of an entry that names it,
      and as skipped the texts of the other entries that are not empty. */
  ghost predicate Holds(lib: Library, items: seq<string>, r: Reading) {
    && r.asns == (if AsnsNamed(lib, items) < 50 then AsnsNamed(lib, items) else 50)
    && !r.full
    && SourcesHeld(lib, items, r)
    && (forall t :: Skipped(t) in r.skipped <==>
          Unkept(lib, items, t))
  }

  ghost predicate Unkept(lib: Library, items: seq<string>, text: string) {
    exists i :: 0 <= i < |items| && EntryText(items[i]) == text != [] && forall o :: !Counts(lib, items, i, o)
  }

  ghost predicate Noted(lib: Library, items: seq<string>, s: ListSource) {
    exists i :: Counts(lib, items, i, s.origin) && s.note == Trim(CutNote(items[i]).1)
  }

  ghost predicate SourcesHeld(lib: Library, items: seq<string>, r: Reading) {
    && (forall o :: o in Origins(r.sources) <==> exists i :: Counts(lib, items, i, o))
    && (forall a, b :: 0 <= a < b < |r.sources| ==> r.sources[a].origin != r.sources[b].origin)
    && (forall s :: s in r.sources ==> Noted(lib, items, s))
    && (forall k :: k in r.seen <==> exists o :: o in Origins(r.sources) && KeyOf(lib, o) == k)
    && (forall o :: o in Origins(r.sources) && o.Net? ==> lib.parse(lib.print_(o.net)) == Some(o.net))
  }

  ghost predicate Taken(lib: Library, r: Reading, text: string, o: Origin) {
    Names(lib, text, o) && (o.Asn? ==> r.asns < 50)
  }

  // What reading one entry does, by the source its text names.
  lemma EntryRead(lib: Library, r: Reading, item: string)
    requires Sound(lib) && lib.parse([]).None?
    ensures var text, note := EntryText(item), Trim(CutNote(item).1);
            && (text == [] ==> ReadEntry(lib, r, item) == r && forall o :: !Names(lib, text, o))
            && (text != [] && (forall o :: !Taken(lib, r, text, o)) ==> ReadEntry(lib, r, item) == Skip(r, text))
            && (forall o :: Taken(lib, r, text, o) ==>
                  ReadEntry(lib, r, item) == Keep(r.(asns := r.asns + if o.Asn? then 1 else 0), KeyOf(lib, o), o, note))
            && (forall o :: Names(lib, text, o) && o.Net? ==> lib.parse(lib.print_(o.net)) == Some(o.net))
  {
    hide PrefixIsGlobal, Trim, CutNote, AsnOf;
    TrimTwice(CutNote(item).0);
    NoAsnInNothing();
    var text := EntryText(item);
    if AsnOf(text).Some? {
      var n := AsnOf(text).value;
      assert Taken(lib, r, text, Asn(n)) <==> AsnValid(n) && r.asns < 50;
    } else if lib.parse(text).Some? {
      var net := lib.parse(text).value;
      assert lib.parse(lib.print_(net)) == Some(net);
      assert Taken(lib, r, text, Net(net)) <==> net.prefix.bits <= Width(net.is4) && PrefixIsGlobal(net.is4, net.prefix) && WideEnough(net);
    }
  }

  lemma OneSource(lib: Library, text: string, o: Origin, q: Origin)
    requires Names(lib, text, o) && Names(lib, text, q)
    ensures o == q
  {
  }

  lemma PlacesJoin(lib: Library, items: seq<string>, item: string)
    ensures AsnsNamed(lib, items + [item]) == AsnsNamed(lib, items) + if NamesAsn(lib, EntryText(item)) then 1 else 0
  {
    hide NamesAsn, EntryText;
    var all := items + [item];
    assert all[|items|] == item && forall k :: 0 <= k < |items| ==> all[k] == items[k];
    var more: set<int> := if NamesAsn(lib, EntryText(item)) then {|items|} else {};
    forall k ensures k in AsnPlaces(lib, all) <==> k in AsnPlaces(lib, items) + more {
      if 0 <= k < |items| {
        assert all[k] == items[k];
      }
    }
    assert AsnPlaces(lib, all) == AsnPlaces(lib, items) + more;
    assert AsnPlaces(lib, items) !! more;
  }

  lemma CountsJoin(lib: Library, items: seq<string>, item: string, i: int, o: Origin)
    ensures Counts(lib, items + [item], i, o)
       <==> Counts(lib, items, i, o)
            || (i == |items| && Names(lib, EntryText(item), o) && (o.Asn? ==> AsnsNamed(lib, items) < 50))
  {
    hide Names, EntryText, AsnsNamed;
    var all := items + [item];
    if 0 <= i < |items| {
      assert all[..i] == items[..i] && all[i] == items[i];
    } else if i == |items| {
      assert all[..i] == items;
    }
  }

  ghost predicate CountsNext(lib: Library, items: seq<string>, item: string, r: Reading) {
    forall i, o :: Counts(lib, items + [item], i, o)
              <==> Counts(lib, items, i, o) || (i == |items| && Taken(lib, r, EntryText(item), o))
  }

  lemma NextCounts(lib: Library, items: seq<string>, item: string, r: Reading)
    requires Holds(lib, items, r)
    ensures CountsNext(lib, items, item, r)
  {
    hide Names, EntryText, AsnsNamed, Counts, SourcesHeld;
    forall i, o
      ensures Counts(lib, items + [item], i, o)
         <==> Counts(lib, items, i, o) || (i == |items| && Taken(lib, r, EntryText(item), o))
    {
      CountsJoin(lib, items, item, i, o);
    }
  }

  // An entry that names nothing to keep.
  lemma SourcesSame(lib: Library, items: seq<string>, item: string, r: Reading, next: Reading)
    requires SourcesHeld(lib, items, r) && CountsNext(lib, items, item, r)
    requires forall o :: !Taken(lib, r, EntryText(item), o)
    requires next.sources == r.sources && next.seen == r.seen
    ensures SourcesHeld(lib, items + [item], next)
  {
    hide Counts, EntryText, Taken, Trim, CutNote, KeyOf;
    forall s | s in r.sources ensures Noted(lib, items + [item], s) {
      NotedStill(lib, items, item, r, s);
    }
  }

  lemma NotedStill(lib: Library, items: seq<string>, item: string, r: Reading, s: ListSource)
    requires Noted(lib, items, s) && CountsNext(lib, items, item, r)
    ensures Noted(lib, items + [item], s)
  {
    hide Names, AsnsNamed, EntryText, Taken, Trim, CutNote;
    var i :| Counts(lib, items, i, s.origin) && s.note == Trim(CutNote(items[i]).1);
    assert (items + [item])[i] == items[i];
  }

  // An entry that names a source to keep.
  lemma SourcesGrow(lib: Library, items: seq<string>, item: string, r: Reading, o: Origin, asns: nat)
    requires SourcesHeld(lib, items, r) && CountsNext(lib, items, item, r)
    requires Taken(lib, r, EntryText(item), o) && (forall q :: Taken(lib, r, EntryText(item), q) ==> q == o)
    requires o.Net? ==> lib.parse(lib.print_(o.net)) == Some(o.net)
    ensures SourcesHeld(lib, items + [item], Keep(r.(asns := asns), KeyOf(lib, o), o, Trim(CutNote(item).1)))
  {
    hide Counts, EntryText, Taken, Trim, CutNote, Noted;
    var note := Trim(CutNote(item).1);
    var all, next := items + [item], Keep(r.(asns := asns), KeyOf(lib, o), o, note);
    assert Counts(lib, all, |items|, o);
    if KeyOf(lib, o) in r.seen {
      var other :| other in Origins(r.sources) && KeyOf(lib, other) == KeyOf(lib, o);
      assert other == o;
    } else {
      assert o !in Origins(r.sources);
      OriginsJoin(r.sources, ListSource(o, note));
      NewNoted(lib, items, item, o);
    }
    forall s | s in r.sources ensures Noted(lib, all, s) {
      NotedStill(lib, items, item, r, s);
    }
  }

  lemma NewNoted(lib: Library, items: seq<string>, item: string, o: Origin)
    requires Counts(lib, items + [item], |items|, o)
    ensures Noted(lib, items + [item], ListSource(o, Trim(CutNote(item).1)))
  {
    assert (items + [item])[|items|] == item;
  }

  lemma OriginsJoin(sources: seq<ListSource>, s: ListSource)
    ensures Origins(sources + [s]) == Origins(sources) + {s.origin}
    ensures s.origin !in Origins(sources) ==> forall a :: 0 <= a < |sources| ==> sources[a].origin != s.origin
  {
    assert forall x :: x in sources + [s] <==> x in sources || x == s;
  }

  lemma SkippedNext(lib: Library, items: seq<string>, item: string, r: Reading, next: Reading)
    requires Holds(lib, items, r) && CountsNext(lib, items, item, r)
    requires next.skipped == if EntryText(item) != [] && forall o :: !Taken(lib, r, EntryText(item), o)
                             then r.skipped + [Skipped(EntryText(item))] else r.skipped
    ensures forall t :: Skipped(t) in next.skipped <==> Unkept(lib, items + [item], t)
  {
    hide Counts, EntryText, Taken, SourcesHeld, AsnsNamed;
    var all := items + [item];
    forall t ensures Skipped(t) in next.skipped <==> Unkept(lib, all, t) {
      assert all[|items|] == item;
      if Unkept(lib, items, t) {
        var i :| 0 <= i < |items| && EntryText(items[i]) == t != [] && forall o :: !Counts(lib, items, i, o);
        assert all[i] == items[i] && forall o :: !Counts(lib, all, i, o);
      }
      if Unkept(lib, all, t) {
        var i :| 0 <= i < |all| && EntryText(all[i]) == t != [] && forall o :: !Counts(lib, all, i, o);
        if i < |items| {
          assert all[i] == items[i] && forall o :: Counts(lib, items, i, o) ==> Counts(lib, all, i, o);
          assert Unkept(lib, items, t);
        } else {
          assert forall o :: Taken(lib, r, EntryText(item), o) ==> Counts(lib, all, i, o);
        }
      }
      if EntryText(item) == t != [] && forall o :: !Taken(lib, r, EntryText(item), o) {
        forall o ensures !Counts(lib, all, |items|, o) {
          CountsInside(lib, items, o);
        }
      }
    }
  }

  lemma CountsInside(lib: Library, items: seq<string>, o: Origin)
    ensures !Counts(lib, items, |items|, o)
  {
  }

  lemma HoldsNext(lib: Library, items: seq<string>, item: string, r: Reading)
    requires Sound(lib) && lib.parse([]).None?
    requires Holds(lib, items, r)
    ensures Holds(lib, items + [item], ReadEntry(lib, r, item))
  {
    hide ReadEntry, EntryText, SourcesHeld, AsnsNamed, NamesAsn, Counts, Names, Trim, CutNote, Unkept, CountsNext, KeyOf;
    var text := EntryText(item);
    var next := ReadEntry(lib, r, item);
    EntryRead(lib, r, item);
    PlacesJoin(lib, items, item);
    AsnNamed(lib, text);
    NextCounts(lib, items, item, r);
    if o :| Taken(lib, r, text, o) {
      forall q | Taken(lib, r, text, q) ensures q == o {
        OneSource(lib, text, o, q);
      }
      SourcesGrow(lib, items, item, r, o, next.asns);
    } else {
      SourcesSame(lib, items, item, r, next);
    }
    SkippedNext(lib, items, item, r, next);
  }

  lemma AsnNamed(lib: Library, text: string)
    ensures NamesAsn(lib, text) <==> exists o :: Names(lib, text, o) && o.Asn?
    ensures forall o, q :: Names(lib, text, o) && Names(lib, text, q) ==> o == q
  {
    if o :| Names(lib, text, o) && o.Asn? {
      assert Names(lib, text, Asn(o.n));
    }
  }

  /** Whatever the list, the panel keeps the sources that count and lists the other texts as skipped. When it
      stops at twenty thousand sources, this holds of the entries it has looked at. */
  lemma {:induction false} PanelReads(lib: Library, items: seq<string>)
    requires Sound(lib) && lib.parse([]).None?
    ensures !ReadList(lib, items).full ==> Holds(lib, items, ReadList(lib, items))
    ensures ReadList(lib, items).full ==>
              exists n, r :: 0 <= n < |items| && Holds(lib, items[..n], r) && |r.sources| == 20000
                && ReadList(lib, items).sources == r.sources && ReadList(lib, items).skipped == r.skipped + [Skipped("...")]
    ensures |ReadList(lib, items).sources| <= 20000
    decreases items
  {
    hide Holds, ReadEntry;
    if items == [] {
      NothingHeld(lib);
    } else {
      var before := items[..|items| - 1];
      PanelReads(lib, before);
      var r := ReadList(lib, before);
      if r.full {
        var n, q :| 0 <= n < |before| && Holds(lib, before[..n], q) && |q.sources| == 20000
          && r.sources == q.sources && r.skipped == q.skipped + [Skipped("...")];
        assert items[..n] == before[..n];
      } else if |r.sources| < 20000 {
        assert before + [items[|items| - 1]] == items;
        HoldsNext(lib, before, items[|items| - 1], r);
        OneMoreAtMost(lib, r, items[|items| - 1]);
      } else {
        assert Holds(lib, items[..|before|], r);
      }
    }
  }

  lemma OneMoreAtMost(lib: Library, r: Reading, item: string)
    ensures |ReadEntry(lib, r, item).sources| <= |r.sources| + 1
    ensures ReadEntry(lib, r, item).full == r.full
  {
    hide AsnOf, Trim, CutNote, PrefixIsGlobal;
  }

  lemma NothingHeld(lib: Library)
    ensures Holds(lib, [], ReadList(lib, []))
  {
    assert AsnPlaces(lib, []) == {};
  }
}
