/** A tunnel written to a file and read again is the same. */
module TunnelRoundTrip {
  import opened Wrappers
  import opened TomlStrings
  import opened TextLines
  import opened TomlText
  import opened TomlValues
  import opened DomainText
  import opened DomainLists
  import opened Tunnels
  import opened TunnelText
  import opened ValueReads

  // ---- The block that some fields make ----

  function PutFields(b: Block, fs: seq<Field>): Block
    decreases |fs|
  {
    if fs == [] then b
    else PutFields(if fs[0].on then Put(b, Assign(fs[0].key, fs[0].raw)) else b, fs[1..])
  }

  predicate Writable(fs: seq<Field>) {
    forall i :: 0 <= i < |fs| && fs[i].on ==> BareKey(fs[i].key) && WholeValue(fs[i].raw)
  }

  predicate KeysDiffer(fs: seq<Field>) {
    forall i, j :: 0 <= i < j < |fs| ==> fs[i].key != fs[j].key
  }

  predicate HasField(fs: seq<Field>, k: string) {
    exists i :: 0 <= i < |fs| && fs[i].key == k
  }

  // A key that no field has is left alone.
  lemma {:induction false} OtherKey(b: Block, fs: seq<Field>, k: string)
    requires !HasField(fs, k)
    ensures Get(PutFields(b, fs), k) == Get(b, k)
    ensures PutFields(b, fs).range == b.range
    decreases |fs|
  {
    hide Unquote;
    if fs != [] {
      assert fs[0].key != k;
      forall j | 0 <= j < |fs[1..]| ensures fs[1..][j].key != k {
        assert fs[1..][j] == fs[j + 1];
      }
      OtherKey(if fs[0].on then Put(b, Assign(fs[0].key, fs[0].raw)) else b, fs[1..], k);
    }
  }

  /** Each key of the block has the value of its field. */
  lemma {:induction false} FieldValue(b: Block, fs: seq<Field>, i: nat)
    requires i < |fs| && KeysDiffer(fs) && fs[i].key !in b.values
    ensures Get(PutFields(b, fs), fs[i].key) == if fs[i].on then Unquote(fs[i].raw) else ""
    decreases |fs|
  {
    hide Unquote;
    var b' := if fs[0].on then Put(b, Assign(fs[0].key, fs[0].raw)) else b;
    if i == 0 {
      forall j | 0 <= j < |fs[1..]| ensures fs[1..][j].key != fs[0].key {
        assert fs[1..][j] == fs[j + 1];
      }
      OtherKey(b', fs[1..], fs[0].key);
    } else {
      assert fs[1..][i - 1] == fs[i];
      FieldValue(b', fs[1..], i - 1);
    }
  }

  // ---- Extra settings ----

  predicate NewKeys(b: Block, fs: seq<Field>) {
    forall i :: 0 <= i < |fs| ==> fs[i].key !in b.raw
  }

  function OnKeys(fs: seq<Field>): seq<string> {
    if fs == [] then [] else (if fs[0].on then [fs[0].key] else []) + OnKeys(fs[1..])
  }

  lemma {:induction false} OrderGrows(b: Block, fs: seq<Field>)
    requires NewKeys(b, fs) && KeysDiffer(fs)
    ensures PutFields(b, fs).order == b.order + OnKeys(fs)
    ensures forall k :: k in b.raw ==> k in PutFields(b, fs).raw && PutFields(b, fs).raw[k] == b.raw[k]
    ensures forall i :: 0 <= i < |fs| && fs[i].on ==> fs[i].key in PutFields(b, fs).raw && PutFields(b, fs).raw[fs[i].key] == fs[i].raw
    decreases |fs|
  {
    hide Unquote;
    if fs != [] {
      var b' := if fs[0].on then Put(b, Assign(fs[0].key, fs[0].raw)) else b;
      assert NewKeys(b', fs[1..]) by {
        forall i | 0 <= i < |fs[1..]| ensures fs[1..][i].key !in b'.raw {
          assert fs[1..][i] == fs[i + 1];
        }
      }
      OrderGrows(b', fs[1..]);
      forall i | 0 <= i < |fs| && fs[i].on ensures fs[i].key in PutFields(b, fs).raw && PutFields(b, fs).raw[fs[i].key] == fs[i].raw {
        if i > 0 {
          assert fs[1..][i - 1] == fs[i];
        }
      }
    }
  }

  lemma {:induction false} ExtrasApart(a: seq<string>, b: seq<string>, raw: map<string, string>, known: seq<string>)
    ensures ExtrasOf(a + b, raw, known) == ExtrasOf(a, raw, known) + ExtrasOf(b, raw, known)
  {
    if a == [] {
      assert a + b == b;
    } else {
      assert (a + b)[0] == a[0] && (a + b)[1..] == a[1..] + b;
      ExtrasApart(a[1..], b, raw, known);
    }
  }

  lemma {:induction false} KnownAreNoExtras(order: seq<string>, raw: map<string, string>, known: seq<string>)
    requires forall k :: k in order ==> k in known
    ensures ExtrasOf(order, raw, known) == []
  {
    if order != [] {
      KnownAreNoExtras(order[1..], raw, known);
    }
  }

  lemma {:induction false} ExtrasRead(extras: seq<Extra>, raw: map<string, string>, known: seq<string>)
    requires forall i :: 0 <= i < |extras| ==> extras[i].key !in known && extras[i].key in raw && raw[extras[i].key] == extras[i].raw
    ensures ExtrasOf(OnKeys(ExtraFields(extras)), raw, known) == extras
  {
    if extras != [] {
      ExtrasRead(extras[1..], raw, known);
      assert extras == [extras[0]] + extras[1..];
      var fs := ExtraFields(extras);
      assert fs[1..] == ExtraFields(extras[1..]);
      assert OnKeys(fs) == [extras[0].key] + OnKeys(fs[1..]);
      assert OnKeys(fs)[1..] == OnKeys(fs[1..]);
    }
  }

  lemma {:induction false} ExtraFieldAt(extras: seq<Extra>)
    ensures |ExtraFields(extras)| == |extras|
    ensures forall i :: 0 <= i < |extras| ==> ExtraFields(extras)[i] == Field(true, extras[i].key, extras[i].raw)
  {
    if extras != [] {
      ExtraFieldAt(extras[1..]);
    }
  }

  lemma {:induction false} OnKeysIn(fs: seq<Field>, k: string)
    requires k in OnKeys(fs)
    ensures HasField(fs, k)
  {
    if fs[0].on && fs[0].key == k {
    } else {
      OnKeysIn(fs[1..], k);
      var i :| 0 <= i < |fs[1..]| && fs[1..][i].key == k;
      assert fs[i + 1].key == k;
    }
  }

  /** Advanced settings that can be written: bare keys of their own, values that end where their text
      ends. */
  predicate GoodExtras(extras: seq<Extra>, known: seq<string>) {
    && (forall i :: 0 <= i < |extras| ==> BareKey(extras[i].key) && WholeValue(extras[i].raw) && extras[i].key !in known)
    && forall i, j :: 0 <= i < j < |extras| ==> extras[i].key != extras[j].key
  }

  lemma WithExtras(fs: seq<Field>, extras: seq<Extra>, known: seq<string>)
    requires Writable(fs) && GoodExtras(extras, known)
    ensures Writable(fs + ExtraFields(extras))
  {
    hide WholeValue, BareKey;
    ExtraFieldAt(extras);
    var all := fs + ExtraFields(extras);
    forall i | 0 <= i < |all| && all[i].on ensures BareKey(all[i].key) && WholeValue(all[i].raw) {
      assert i >= |fs| ==> all[i] == ExtraFields(extras)[i - |fs|];
    }
  }

  function EmptyBlock(range: Option<Range>): Block {
    Block(map[], map[], [], range)
  }

  predicate KeysAre(fs: seq<Field>, known: seq<string>) {
    |fs| == |known| && (forall i :: 0 <= i < |fs| ==> fs[i].key == known[i])
    && forall i, j :: 0 <= i < j < |known| ==> known[i] != known[j]
  }

  /** A block made of its main fields, then of advanced settings: every value and every advanced
      setting is read back, in order. */
  lemma BlockReads(fs: seq<Field>, extras: seq<Extra>, known: seq<string>, range: Option<Range>)
    requires KeysAre(fs, known) && GoodExtras(extras, known)
    ensures var b := PutFields(EmptyBlock(range), fs + ExtraFields(extras));
            && b.range == range
            && (forall i :: 0 <= i < |fs| ==> Get(b, fs[i].key) == if fs[i].on then Unquote(fs[i].raw) else "")
            && ExtrasOf(b.order, b.raw, known) == extras
  {
    hide Unquote, Complete, BareKey, PutFields, Get;
    var es := ExtraFields(extras);
    var all := fs + es;
    var e := EmptyBlock(range);
    ExtraFieldAt(extras);
    AllDiffer(fs, extras, known);
    OtherKeyNone(e, all);
    forall i | 0 <= i < |fs| ensures Get(PutFields(e, all), fs[i].key) == if fs[i].on then Unquote(fs[i].raw) else "" {
      assert all[i] == fs[i];
      FieldValue(e, all, i);
    }
    OrderGrows(e, all);
    OnKeysApart(fs, es);
    var b := PutFields(e, all);
    assert b.order == OnKeys(fs) + OnKeys(es);
    ExtrasApart(OnKeys(fs), OnKeys(es), b.raw, known);
    forall k | k in OnKeys(fs) ensures k in known {
      OnKeysIn(fs, k);
    }
    KnownAreNoExtras(OnKeys(fs), b.raw, known);
    forall i | 0 <= i < |extras| ensures extras[i].key in b.raw && b.raw[extras[i].key] == extras[i].raw {
      assert all[|fs| + i] == es[i];
    }
    ExtrasRead(extras, b.raw, known);
  }

  lemma OtherKeyNone(b: Block, fs: seq<Field>)
    ensures PutFields(b, fs).range == b.range
    decreases |fs|
  {
    if fs != [] {
      OtherKeyNone(if fs[0].on then Put(b, Assign(fs[0].key, fs[0].raw)) else b, fs[1..]);
    }
  }

  lemma {:induction false} OnKeysApart(x: seq<Field>, y: seq<Field>)
    ensures OnKeys(x + y) == OnKeys(x) + OnKeys(y)
  {
    if x == [] {
      assert x + y == y;
    } else {
      assert (x + y)[0] == x[0] && (x + y)[1..] == x[1..] + y;
      OnKeysApart(x[1..], y);
    }
  }

  lemma AllDiffer(fs: seq<Field>, extras: seq<Extra>, known: seq<string>)
    requires KeysAre(fs, known) && GoodExtras(extras, known)
    ensures KeysDiffer(fs + ExtraFields(extras))
  {
    hide Complete, BareKey;
    ExtraFieldAt(extras);
    var all := fs + ExtraFields(extras);
    forall i, j | 0 <= i < j < |all| ensures all[i].key != all[j].key {
      if j >= |fs| {
        assert all[j].key == extras[j - |fs|].key;
        if i < |fs| {
          assert all[i].key == known[i] && known[i] in known;
        } else {
          assert all[i].key == extras[i - |fs|].key;
        }
      }
    }
  }

  // ---- Lines of a block ----

  /** The reader is in a block, on a line that continues nothing. */
  predicate Reading(st: Parsed, bs: seq<Block>, b: Block) {
    && st.mode.Ready? && st.prefix == "" && st.cur.Some?
    && (if st.cur.value then st.visitors else st.proxies) == bs + [b]
  }

  function WithLast(st: Parsed, bs: seq<Block>, b: Block): Parsed {
    if st.cur == Some(true) then st.(visitors := bs + [b]) else st.(proxies := bs + [b])
  }

  lemma StoreFills(st: Parsed, bs: seq<Block>, b: Block, key: string, raw: string)
    requires Reading(st, bs, b)
    ensures Store(st, key, raw) == WithLast(st, bs, Put(b, Assign(key, raw)))
    ensures Reading(Store(st, key, raw), bs, Put(b, Assign(key, raw)))
  {
    hide Put;
    assert (bs + [b])[..|bs|] == bs && "" + key == key;
  }

  // Field lines fill the last block.
  lemma {:induction false} FieldsFeed(st: Parsed, fs: seq<Field>, bs: seq<Block>, b: Block)
    requires Writable(fs) && Reading(st, bs, b)
    ensures Feed(st, LinesOf(FieldLines(fs))) == WithLast(st, bs, PutFields(b, fs))
    decreases |fs|
  {
    hide Put, WholeValue, BareKey, AssignText, Lines, Feed, Store;
    if fs != [] {
      var rest := fs[1..];
      assert Writable(rest) by {
        forall i | 0 <= i < |rest| && rest[i].on ensures BareKey(rest[i].key) && WholeValue(rest[i].raw) {
          assert rest[i] == fs[i + 1];
        }
      }
      if fs[0].on {
        var a := Assign(fs[0].key, fs[0].raw);
        FieldReads(st, bs, b, a);
        LinesOfApart([AssignText(a)], FieldLines(rest));
        LinesOfOne(AssignText(a));
        FeedApart(st, Lines(AssignText(a)), LinesOf(FieldLines(rest)));
        FieldsFeed(Store(st, a.key, a.raw), rest, bs, Put(b, a));
      } else {
        FieldsFeed(st, rest, bs, b);
        assert FieldLines(fs) == FieldLines(rest);
      }
    } else {
      FedNothing(st);
    }
  }

  lemma FieldReads(st: Parsed, bs: seq<Block>, b: Block, a: Assign)
    requires Reading(st, bs, b) && BareKey(a.key) && WholeValue(a.raw)
    ensures Feed(st, Lines(AssignText(a))) == Store(st, a.key, a.raw) == WithLast(st, bs, Put(b, a))
    ensures Reading(Store(st, a.key, a.raw), bs, Put(b, a)) && Store(st, a.key, a.raw).cur == st.cur
  {
    hide WholeValue, BareKey, Lines, Feed, Put, Store;
    WholeReads(st, a.key, a.raw);
    StoreFills(st, bs, b, a.key, a.raw);
  }

  lemma LinesOfOne(t: string)
    ensures LinesOf([t]) == Lines(t)
  {
    hide Lines;
    assert [t][1..] == [];
  }

  lemma FedNothing(st: Parsed)
    ensures Feed(st, []) == st
  {
  }

  lemma FedOne(st: Parsed, x: string)
    requires NoBreak(x)
    ensures Feed(st, LinesOf([x])) == Step(st, x)
  {
    hide Step, Lines;
    LinesOfOne(x);
    OneLineIs(x);
    assert [x][1..] == [];
  }

  // ---- The round trip of a tunnel ----

  /** A port as the page keeps it: empty, or a value that reads as itself. */
  predicate GoodPort(t: string) {
    t == "" || (OneLine(t) && IntText(Unquote(t)) == t)
  }

  /** A list of ports inside the quotes of a range line. */
  predicate GoodRange(t: string) {
    '\"' !in t && NoBreak(t)
  }

  /** A tunnel as the page keeps it: only the settings of its type, strings with plain actions,
      ports that read as themselves; the ports of a range hold no quote and no line end. No line of
      its text starts an array of tunnels. */
  ghost predicate Normal(p: Tunnel) {
    var s := p.settings;
    && p.kind != BOTH && p.kind != "" && PlainActions(p.kind) && PlainActions(PrintedName(p))
    && s.localIP != "" && Unbracket(s.localIP) == s.localIP && PlainActions(s.localIP)
    && (if IsRanged(p) then GoodRange(s.localPort) && GoodRange(s.remotePort)
        else GoodPort(s.localPort) && (s.remotePort == "" || (GoodPort(s.remotePort) && NonZero(s.remotePort))))
    && (s.remotePort != "" ==> HasRemotePort(p.kind))
    && (if s.domains == "" then true else HasDomains(p.kind) && NormalDomains(s.domains))
    && (s.secretKey != "" ==> HasSecret(p.kind)) && PlainActions(s.secretKey) && PlainActions(s.proxyProtocol)
    && GoodExtras(s.extras, PROXY_KEYS) && !HasArray(ProxyText(p))
    && p.comments == [] && p.notes == map[] && p.udpComments == [] && p.udpNotes == None
  }

  lemma PlainWord(raw: string)
    requires raw == PORT_ALONE || raw == PORT_FIRST || raw == PORT_SECOND || raw == "true"
    ensures OneLine(raw) && Unquote(raw) == raw
  {
    hide CommentAt, MultilineEnd, Brackets;
    PlainChars(raw);
    PlainWordOneLine(raw);
    assert raw[0..3][0] == raw[0];
  }

  lemma PlainChars(raw: string)
    requires raw == PORT_ALONE || raw == PORT_FIRST || raw == PORT_SECOND || raw == "true"
    ensures Tight(raw) && NoBreak(raw) && forall k :: 0 <= k < |raw| ==> !IsQuote(raw[k]) && raw[k] != '#' && raw[k] != '['
  {
  }

  // What each main line of a tunnel says.
  lemma MainFieldsWritable(p: Tunnel)
    requires Normal(p)
    ensures Writable(MainFields(p)) && KeysAre(MainFields(p), PROXY_KEYS)
  {
    hide WholeValue, PlainActions, Unbracket, DomainsRaw, Str, IntText, Unquote, NormalDomains, GoodExtras, IsPortRange, NonZero, Normal;
    var fs := MainFields(p);
    MainKeysBare();
    forall i | 0 <= i < |fs| && fs[i].on ensures WholeValue(fs[i].raw) {
      FieldOneLine(p, i);
      OneLineWhole(fs[i].raw);
    }
    forall i | 0 <= i < |fs| ensures fs[i].key == PROXY_KEYS[i] {
    }
  }

  lemma MainKeysBare()
    ensures forall i :: 0 <= i < |PROXY_KEYS| ==> BareKey(PROXY_KEYS[i])
    ensures forall i, j :: 0 <= i < j < |PROXY_KEYS| ==> PROXY_KEYS[i] != PROXY_KEYS[j]
  {
    hide BareKey;
    ShortKeysBare();
    LongKeysBare();
  }

  lemma ShortKeysBare()
    ensures BareKey("name") && BareKey("type") && BareKey("localIP") && BareKey("localPort") && BareKey("remotePort")
    ensures BareKey("customDomains") && BareKey("secretKey")
  {
  }

  lemma LongKeysBare()
    ensures BareKey("transport.useCompression") && BareKey("transport.useEncryption")
    ensures BareKey("transport.proxyProtocolVersion")
  {
  }

  lemma FieldOneLine(p: Tunnel, i: nat)
    requires i < |MainFields(p)| && MainFields(p)[i].on && Normal(p)
    ensures OneLine(MainFields(p)[i].raw)
  {
    hide OneLine, PlainActions, Unbracket, DomainsRaw, Str, IntText, Unquote, NormalDomains, GoodExtras, IsPortRange, NonZero, HasArray;
    var s := p.settings;
    StrOneLine(PrintedName(p));
    StrOneLine(p.kind);
    StrOneLine(Unbracket(s.localIP));
    StrOneLine(s.secretKey);
    StrOneLine(s.proxyProtocol);
    PlainWord(LoopPort(p));
    PlainWord(PORT_SECOND);
    PlainWord("true");
    if s.domains != "" {
      DomainsRoundTrip(s.domains, IsRanged(p));
    }
  }

  function RangeFor(p: Tunnel): Option<Range> {
    if IsRanged(p) then Some(Range(p.settings.localPort, if IsPair(p) then p.settings.remotePort else "")) else None
  }

  function BlockOf(p: Tunnel): Block {
    PutFields(EmptyBlock(RangeFor(p)), MainFields(p) + ExtraFields(p.settings.extras))
  }

  // The texts of a block hold no carriage return.
  lemma {:induction false} FieldTexts(fs: seq<Field>)
    requires Writable(fs)
    ensures forall i :: 0 <= i < |FieldLines(fs)| ==> NoReturn(FieldLines(fs)[i])
    decreases |fs|
  {
    hide WholeValue, BareKey;
    if fs != [] {
      var rest := fs[1..];
      assert Writable(rest) by {
        forall i | 0 <= i < |rest| && rest[i].on ensures BareKey(rest[i].key) && WholeValue(rest[i].raw) {
          assert rest[i] == fs[i + 1];
        }
      }
      FieldTexts(rest);
      if fs[0].on {
        FieldNoReturn(fs[0].key, fs[0].raw);
      }
    }
  }

  lemma FieldNoReturn(key: string, raw: string)
    requires BareKey(key) && WholeValue(raw)
    ensures NoReturn(AssignText(Assign(key, raw)))
  {
    hide BareKey, Lines, LeftOpen, Complete, UpTo, Closes;
    KeyNoBreak(key);
  }

  /** A block read: a range line if there is one, the header, the fields, and the end line. */
  lemma BlockFeeds(st: Parsed, range: Option<Range>, pair: bool, head: string, visitors: bool, fs: seq<Field>, texts: seq<string>)
    requires st.mode.Ready? && st.pending == None && Writable(fs)
    requires head == (if visitors then VISITOR_HEAD else PROXY_HEAD)
    requires texts == RangeLines(range, pair) + ([head] + FieldLines(fs)) + (if range.Some? then [END_TEXT] else [])
    requires range.Some? ==> GoodRange(range.value.local) && GoodRange(range.value.remote) && (pair || range.value.remote == "")
    ensures Feed(st, Lines(JoinLines(texts))) == NewBlock(st, visitors, PutFields(EmptyBlock(range), fs))
  {
    hide Feed, Lines, Step, FieldLines, PutFields, GoodRange, WholeValue, RangeText, LinesOf;
    BlockTexts(range, pair, head, fs, texts);
    LinesJoined(texts);
    var a, b, e := RangeLines(range, pair), [head] + FieldLines(fs), if range.Some? then [END_TEXT] else [];
    LinesOfApart(a + b, e);
    LinesOfApart(a, b);
    LinesOfApart([head], FieldLines(fs));
    FeedApart(st, LinesOf(a) + LinesOf(b), LinesOf(e));
    FeedApart(st, LinesOf(a), LinesOf(b));
    var st1 := st.(pending := range);
    RangeFeeds(st, range, pair);
    FeedApart(st1, LinesOf([head]), LinesOf(FieldLines(fs)));
    HeaderFeeds(st1, visitors);
    var bs := if visitors then st.visitors else st.proxies;
    FieldsFeed(NewBlock(st, visitors, EmptyBlock(range)), fs, bs, EmptyBlock(range));
    EndFeeds(NewBlock(st, visitors, PutFields(EmptyBlock(range), fs)), range);
  }

  function NewBlock(st: Parsed, visitors: bool, b: Block): Parsed {
    if visitors then st.(visitors := st.visitors + [b], cur := Some(true), prefix := "")
    else st.(proxies := st.proxies + [b], cur := Some(false), prefix := "")
  }

  /** The range line, with the ports of one side or of both (`pair`). */
  function RangeLines(range: Option<Range>, pair: bool): seq<string> {
    match range
    case None => []
    case Some(r) => [RangeText(r.local, if pair then Some(r.remote) else None)]
  }

  lemma BlockTexts(range: Option<Range>, pair: bool, head: string, fs: seq<Field>, texts: seq<string>)
    requires Writable(fs) && (head == VISITOR_HEAD || head == PROXY_HEAD)
    requires texts == RangeLines(range, pair) + ([head] + FieldLines(fs)) + (if range.Some? then [END_TEXT] else [])
    requires range.Some? ==> GoodRange(range.value.local) && GoodRange(range.value.remote)
    ensures texts != [] && forall i :: 0 <= i < |texts| ==> NoReturn(texts[i])
  {
    hide WholeValue, FieldLines, RangeText, Writable;
    FieldTexts(fs);
    MarksNoBreak();
    match range
    case None =>
    case Some(r) => RangeNoBreak(r.local, if pair then Some(r.remote) else None);
  }

  lemma MarksNoBreak()
    ensures NoBreak(PROXY_HEAD) && NoBreak(VISITOR_HEAD) && NoBreak(END_TEXT)
  {
  }

  lemma RangeNoBreak(local: string, remote: Option<string>)
    requires GoodRange(local) && (remote.Some? ==> GoodRange(remote.value))
    ensures NoBreak(RangeText(local, remote))
  {
    HeadsNoBreak();
  }

  lemma HeadsNoBreak()
    ensures NoBreak(PAIR_HEAD) && NoBreak(ONE_HEAD) && NoBreak(RANGE_TAIL) && NoBreak("\" \"")
  {
  }

  lemma RangeFeeds(st: Parsed, range: Option<Range>, pair: bool)
    requires st.mode.Ready? && st.pending == None
    requires range.Some? ==> GoodRange(range.value.local) && GoodRange(range.value.remote) && (pair || range.value.remote == "")
    ensures Feed(st, LinesOf(RangeLines(range, pair))) == st.(pending := range)
  {
    hide Step, RangeText, LinesOf, Feed;
    match range
    case None =>
      FedNothing(st);
      assert LinesOf([]) == [] by { NoLines(); }
    case Some(r) =>
      var remote := if pair then Some(r.remote) else None;
      RangeNoBreak(r.local, remote);
      FedOne(st, RangeText(r.local, remote));
      RangeStep(st, r.local, remote);
  }

  lemma NoLines()
    ensures LinesOf([]) == []
  {
  }

  lemma HeaderFeeds(st: Parsed, visitors: bool)
    requires st.mode.Ready?
    ensures Feed(st, LinesOf([if visitors then VISITOR_HEAD else PROXY_HEAD]))
         == NewBlock(st.(pending := None), visitors, EmptyBlock(st.pending))
  {
    hide ReadLine, LinesOf, Feed;
    MarksNoBreak();
    MarksRead();
    FedOne(st, if visitors then VISITOR_HEAD else PROXY_HEAD);
  }

  lemma MarksRead()
    ensures ReadLine(PROXY_HEAD) == HeadLine(false) && ReadLine(VISITOR_HEAD) == HeadLine(true) && ReadLine(END_TEXT) == EndLine
  {
    hide Trim, IsSpace, LastPort, FindQuote, KeyEnd;
    MarksTight();
    TrimTight(PROXY_HEAD);
    TrimTight(VISITOR_HEAD);
    TrimTight(END_TEXT);
    Differ(PROXY_HEAD, PAIR_HEAD);
    Differ(PROXY_HEAD, ONE_HEAD);
    Differ(VISITOR_HEAD, PAIR_HEAD);
    Differ(VISITOR_HEAD, ONE_HEAD);
    assert |END_TEXT| < |PAIR_HEAD| && |END_TEXT| < |ONE_HEAD|;
  }

  lemma MarksTight()
    ensures Tight(PROXY_HEAD) && Tight(VISITOR_HEAD) && Tight(END_TEXT)
  {
  }

  lemma EndFeeds(st: Parsed, range: Option<Range>)
    requires st.mode.Ready?
    ensures Feed(st, LinesOf(if range.Some? then [END_TEXT] else [])) == st
  {
    hide ReadLine, LinesOf, Feed;
    MarksNoBreak();
    MarksRead();
    NoLines();
    FedNothing(st);
    FedOne(st, END_TEXT);
  }

  lemma RangeStep(st: Parsed, local: string, remote: Option<string>)
    requires st.mode.Ready? && '\"' !in local && (remote.Some? ==> '\"' !in remote.value)
    ensures Step(st, RangeText(local, remote)) == st.(pending := Some(Range(local, if remote.Some? then remote.value else "")))
  {
    hide RangeOf, Trim, IsSpace, RangeText;
    var x := RangeText(local, remote);
    RangeReads(local, remote);
    RangeEnds(local, remote);
    BracesTight(x);
    TrimTight(x);
  }

  lemma RangeEnds(local: string, remote: Option<string>)
    ensures var x := RangeText(local, remote); |x| >= 2 && x[0] == '{' && x[|x| - 1] == '}'
  {
    match remote
    case Some(r) => assert PAIR_HEAD + local + "\" \"" + r + RANGE_TAIL == PAIR_HEAD + (local + "\" \"" + r + RANGE_TAIL);
    case None => assert ONE_HEAD + local + RANGE_TAIL == ONE_HEAD + (local + RANGE_TAIL);
  }

  lemma BracesTight(x: string)
    requires |x| >= 2 && x[0] == '{' && x[|x| - 1] == '}'
    ensures Tight(x)
  {
  }

  // The text of a tunnel, read after any blocks, adds its block.
  lemma ProxyFeeds(st: Parsed, p: Tunnel)
    requires Normal(p) && st.mode.Ready? && st.pending == None
    ensures Feed(st, Lines(ProxyText(p))) == NewBlock(st, false, BlockOf(p))
  {
    hide Feed, Lines, FieldLines, MainFields, ExtraFields, PutFields, Normal, RangeText, IsRanged, Writable;
    AllWritable(p);
    NormalRange(p);
    BlockFeeds(st, RangeFor(p), IsPair(p), PROXY_HEAD, false, MainFields(p) + ExtraFields(p.settings.extras), GenerateProxy(p));
  }

  lemma NormalRange(p: Tunnel)
    requires Normal(p)
    ensures RangeFor(p).Some? ==>
              GoodRange(RangeFor(p).value.local) && GoodRange(RangeFor(p).value.remote) && (IsPair(p) || RangeFor(p).value.remote == "")
    ensures GenerateProxy(p) == RangeLines(RangeFor(p), IsPair(p)) + ([PROXY_HEAD] + FieldLines(MainFields(p) + ExtraFields(p.settings.extras)))
                                + (if RangeFor(p).Some? then [END_TEXT] else [])
  {
    hide PlainActions, FieldLines, MainFields, RangeText, GoodExtras, HasArray;
  }

  lemma AllWritable(p: Tunnel)
    requires Normal(p)
    ensures Writable(MainFields(p) + ExtraFields(p.settings.extras))
  {
    hide Writable, MainFields, HasArray, PlainActions, GoodExtras;
    MainFieldsWritable(p);
    WithExtras(MainFields(p), p.settings.extras, PROXY_KEYS);
  }

  /** The block of a tunnel reads as that tunnel. */
  lemma BlockRoundTrip(p: Tunnel)
    requires Normal(p)
    ensures ProxyFromBlock(BlockOf(p), p.uid) == p
  {
    hide Normal, DomainsOf, IntText, NonZero, StripLoop, ExtrasOf, PutFields, Get, IsRanged;
    MainFieldsRead(p);
    NamesRead(p);
    PortsRead(p);
    DomainsRead(p);
    OtherParts(p);
  }

  // What each main key of the block says.
  lemma MainFieldsRead(p: Tunnel)
    requires Normal(p)
    ensures var b, s := BlockOf(p), p.settings;
            && b.range == RangeFor(p) && ExtrasOf(b.order, b.raw, PROXY_KEYS) == s.extras
            && Get(b, "name") == PrintedName(p) && Get(b, "type") == p.kind && Get(b, "localIP") == s.localIP
            && Get(b, "localPort") == (if IsRanged(p) then Unquote(LoopPort(p)) else if s.localPort != "" then Unquote(s.localPort) else "")
            && Get(b, "remotePort") == (if IsPair(p) then PORT_SECOND
                                        else if HasRemotePort(p.kind) && s.remotePort != "" then Unquote(s.remotePort) else "")
            && Get(b, "customDomains") == (if HasDomains(p.kind) && s.domains != "" then Unquote(DomainsRaw(s.domains, IsRanged(p))) else "")
            && Get(b, "secretKey") == s.secretKey && Get(b, "transport.proxyProtocolVersion") == s.proxyProtocol
            && Get(b, "transport.useCompression") == (if s.compression then "true" else "")
            && Get(b, "transport.useEncryption") == (if s.encryption then "true" else "")
  {
    hide OneLine, PlainActions, Unbracket, DomainsRaw, Str, IntText, Unquote, NormalDomains, GoodExtras, IsPortRange, NonZero, HasArray,
      ExtrasOf, PutFields, Get, GoodRange;
    var fs, s := MainFields(p), p.settings;
    MainFieldsWritable(p);
    BlockReads(fs, s.extras, PROXY_KEYS, RangeFor(p));
    assert fs[0].key == "name" && fs[1].key == "type" && fs[2].key == "localIP" && fs[3].key == "localPort" && fs[4].key == "remotePort";
    assert fs[5].key == "customDomains" && fs[6].key == "secretKey" && fs[7].key == "transport.useCompression";
    assert fs[8].key == "transport.useEncryption" && fs[9].key == "transport.proxyProtocolVersion";
    UnquoteStrPlain(PrintedName(p));
    UnquoteStrPlain(p.kind);
    UnquoteStrPlain(s.localIP);
    UnquoteStrPlain(s.secretKey);
    UnquoteStrPlain(s.proxyProtocol);
    PlainWord("true");
    PlainWord(PORT_SECOND);
  }

  lemma NamesRead(p: Tunnel)
    ensures IsRanged(p) ==> StripLoop(PrintedName(p), FIRST, 0) == p.name
    ensures !IsRanged(p) ==> PrintedName(p) == p.name
  {
    hide StripLoop, IsRanged;
    LoopTexts();
    StripRestores(p.name, LoopPort(p), FIRST);
  }

  lemma PortsRead(p: Tunnel)
    requires Normal(p)
    ensures var s := p.settings; !IsRanged(p) ==>
            && IntText(if s.localPort != "" then Unquote(s.localPort) else "") == s.localPort
            && var r := if HasRemotePort(p.kind) && s.remotePort != "" then Unquote(s.remotePort) else "";
               (if NonZero(IntText(r)) then IntText(r) else "") == s.remotePort
  {
    hide OneLine, PlainActions, Unbracket, IntText, Unquote, NormalDomains, GoodExtras, IsPortRange, NonZero, HasArray, MainFields;
    NoPort();
  }

  lemma DomainsRead(p: Tunnel)
    requires Normal(p)
    ensures var s := p.settings;
            DomainsOf(if HasDomains(p.kind) && s.domains != "" then Unquote(DomainsRaw(s.domains, IsRanged(p))) else "", IsRanged(p)) == s.domains
  {
    hide OneLine, PlainActions, Unbracket, IntText, Unquote, NormalDomains, GoodExtras, IsPortRange, NonZero, HasArray, MainFields,
      DomainsOf, DomainsRaw;
    NoDomains(IsRanged(p));
    if p.settings.domains != "" {
      DomainsRoundTrip(p.settings.domains, IsRanged(p));
    }
  }

  lemma OtherParts(p: Tunnel)
    requires Normal(p)
    ensures p.kind != "" && p.settings.localIP != "" && p.comments == [] && p.notes == map[] && p.udpComments == [] && p.udpNotes == None
    ensures IsRanged(p) ==> (if IsPair(p) then p.settings.remotePort else "") == p.settings.remotePort
  {
    hide OneLine, PlainActions, Unbracket, IntText, Unquote, NormalDomains, GoodExtras, IsPortRange, NonZero, HasArray, MainFields;
  }

  /** What frp finds in the block of a tunnel: each setting under the name frp gives it, and settings that are
      not set left out. A tunnel of several ports has the ports on its range line. */
  ghost predicate FrpSees(b: Block, p: Tunnel) {
    var s := p.settings;
    && Get(b, "type") == p.kind && Get(b, "localIP") == s.localIP
    && DomainsOf(Get(b, "customDomains"), IsRanged(p)) == s.domains && Get(b, "secretKey") == s.secretKey
    && Get(b, "transport.useCompression") == (if s.compression then "true" else "")
    && Get(b, "transport.useEncryption") == (if s.encryption then "true" else "")
    && Get(b, "transport.proxyProtocolVersion") == s.proxyProtocol
    && (forall x :: x in s.extras ==> x.key in b.raw && b.raw[x.key] == x.raw)
    && if IsRanged(p) then b.range == Some(Range(s.localPort, s.remotePort))
       else
         && b.range == None && Get(b, "name") == p.name
         && IntText(Get(b, "localPort")) == s.localPort
         && (if NonZero(IntText(Get(b, "remotePort"))) then IntText(Get(b, "remotePort")) else "") == s.remotePort
  }

  lemma {:induction false} ExtrasAreThere(order: seq<string>, raw: map<string, string>, known: seq<string>)
    ensures forall x :: x in ExtrasOf(order, raw, known) ==> x.key in raw && raw[x.key] == x.raw
  {
    if order != [] {
      ExtrasAreThere(order[1..], raw, known);
    }
  }

  lemma BlockSeen(p: Tunnel)
    requires Normal(p)
    ensures FrpSees(BlockOf(p), p)
  {
    hide Normal, DomainsOf, IntText, NonZero, ExtrasOf, BlockOf, Get, IsRanged, PrintedName, StripLoop, DomainsRaw, Unquote, LoopPort;
    MainFieldsRead(p);
    NamesRead(p);
    PortsRead(p);
    DomainsRead(p);
    OtherParts(p);
    ExtrasAreThere(BlockOf(p).order, BlockOf(p).raw, PROXY_KEYS);
  }

  lemma NoPort()
    ensures IntText("") == "" && !NonZero("")
  {
  }

  lemma NoDomains(ranged: bool)
    ensures DomainsOf("", ranged) == ""
  {
    hide LoopLen;
    assert Trim("") == "";
  }

  // ---- A whole file ----

  /** Blocks one behind the other, a blank line between them. */
  function JoinBlocks(blocks: seq<string>): string {
    if blocks == [] then [] else if |blocks| == 1 then blocks[0] else blocks[0] + "\n\n" + JoinBlocks(blocks[1..])
  }

  function FileText(blocks: seq<string>): string {
    JoinBlocks(blocks) + "\n"
  }

  function FileLines(blocks: seq<string>): seq<string> {
    if blocks == [] then [] else Lines(blocks[0]) + [""] + FileLines(blocks[1..])
  }

  /** The text of a block: no carriage return, no block in the form of an array, no byte order mark. */
  predicate BlockText(t: string) {
    NoReturn(t) && !HasArray(t) && t != [] && t[0] != '\U{FEFF}'
  }

  lemma {:induction false} FileSplits(blocks: seq<string>)
    requires blocks != [] && forall i :: 0 <= i < |blocks| ==> BlockText(blocks[i])
    ensures Lines(FileText(blocks)) == FileLines(blocks) && !HasArray(FileText(blocks)) && WithoutMark(FileText(blocks)) == FileText(blocks)
    ensures NoReturn(FileText(blocks))
    decreases |blocks|
  {
    hide Lines, HasArray;
    var b, rest := blocks[0], blocks[1..];
    assert blocks == [b] + rest && BlockText(b);
    EmptyHasNone();
    EmptyLine();
    if rest == [] {
      assert FileText(blocks) == b + "\n" + "";
      LinesApart(b, "");
      HasArrayApart(b, "");
      assert Lines(b) + [""] + [] == Lines(b) + [""];
    } else {
      FileSplits(rest);
      var x := FileText(rest);
      BlankBetween(b, JoinBlocks(rest));
      LinesApart(b, "" + "\n" + x);
      LinesApart("", x);
      HasArrayApart(b, "" + "\n" + x);
      HasArrayApart("", x);
      assert Lines(b) + ([""] + FileLines(rest)) == Lines(b) + [""] + FileLines(rest);
    }
  }

  lemma BlankBetween(b: string, j: string)
    ensures b + "\n\n" + j + "\n" == b + "\n" + ("" + "\n" + (j + "\n"))
  {
  }

  lemma EmptyLine()
    ensures Lines("") == [""] && NoReturn("")
  {
  }

  lemma {:induction false} FileApart(a: seq<string>, b: seq<string>)
    ensures FileLines(a + b) == FileLines(a) + FileLines(b)
  {
    hide Lines;
    if a == [] {
      assert a + b == b;
    } else {
      assert (a + b)[0] == a[0] && (a + b)[1..] == a[1..] + b;
      FileApart(a[1..], b);
      assert Lines(a[0]) + [""] + (FileLines(a[1..]) + FileLines(b)) == Lines(a[0]) + [""] + FileLines(a[1..]) + FileLines(b);
    }
  }

  lemma BlankFeeds(st: Parsed)
    requires st.mode.Ready?
    ensures Feed(st, [""]) == st
  {
    assert [""][1..] == [] && Trim("") == [];
  }

  function ProxyTexts(ps: seq<Tunnel>): seq<string> {
    if ps == [] then [] else [ProxyText(ps[0])] + ProxyTexts(ps[1..])
  }

  function BlocksOf(ps: seq<Tunnel>): seq<Block> {
    if ps == [] then [] else [BlockOf(ps[0])] + BlocksOf(ps[1..])
  }

  lemma {:induction false} AllFeed(st: Parsed, ps: seq<Tunnel>)
    requires (forall i :: 0 <= i < |ps| ==> Normal(ps[i])) && st.mode.Ready? && st.pending == None
    ensures var out := Feed(st, FileLines(ProxyTexts(ps)));
            && out.proxies == st.proxies + BlocksOf(ps) && out.visitors == st.visitors
            && out.mode.Ready? && out.pending == None
    decreases |ps|
  {
    hide Normal, ProxyText, BlockOf, Step, Feed, BlocksOf, Lines;
    BlocksFirst(ps);
    if ps == [] {
      FedNothing(st);
      assert st.proxies + [] == st.proxies;
    } else {
      assert st.proxies + BlocksOf(ps) == st.proxies + [BlockOf(ps[0])] + BlocksOf(ps[1..]);
      var st' := NewBlock(st, false, BlockOf(ps[0]));
      assert ProxyTexts(ps)[1..] == ProxyTexts(ps[1..]);
      ProxyFeeds(st, ps[0]);
      FeedApart(st, Lines(ProxyText(ps[0])) + [""], FileLines(ProxyTexts(ps[1..])));
      FeedApart(st, Lines(ProxyText(ps[0])), [""]);
      BlankFeeds(st');
      AllFeed(st', ps[1..]);
    }
  }

  lemma BlocksFirst(ps: seq<Tunnel>)
    ensures BlocksOf(ps) == if ps == [] then [] else [BlockOf(ps[0])] + BlocksOf(ps[1..])
  {
    hide BlockOf;
  }

  lemma {:induction false} BlocksAt(ps: seq<Tunnel>)
    ensures |BlocksOf(ps)| == |ps|
    ensures forall i :: 0 <= i < |ps| ==> BlocksOf(ps)[i] == BlockOf(ps[i])
  {
    hide BlockOf;
    if ps != [] {
      BlocksAt(ps[1..]);
    }
  }

  lemma {:induction false} ProxyTextsAt(ps: seq<Tunnel>)
    requires forall i :: 0 <= i < |ps| ==> Normal(ps[i])
    ensures |ProxyTexts(ps)| == |ps| && forall i :: 0 <= i < |ps| ==> BlockText(ProxyTexts(ps)[i])
  {
    hide Normal, ProxyText, BlockText;
    if ps != [] {
      ProxyTextsAt(ps[1..]);
      ProxyIsBlock(ps[0]);
    }
  }

  lemma ProxyIsBlock(p: Tunnel)
    requires Normal(p)
    ensures BlockText(ProxyText(p))
  {
    hide HasArray, Normal, FieldLines, MainFields, Writable, RangeText, GoodRange, IsRanged;
    AllWritable(p);
    NormalRange(p);
    BlockTexts(RangeFor(p), IsPair(p), PROXY_HEAD, MainFields(p) + ExtraFields(p.settings.extras), GenerateProxy(p));
    NoReturnJoined(GenerateProxy(p));
    FirstChar(RangeFor(p), IsPair(p), PROXY_HEAD, FieldLines(MainFields(p) + ExtraFields(p.settings.extras)), GenerateProxy(p));
    NoArrayIn(p);
  }

  lemma NoArrayIn(p: Tunnel)
    requires Normal(p)
    ensures !HasArray(ProxyText(p))
  {
    hide HasArray, ProxyText, PlainActions, GoodExtras;
  }

  lemma FirstChar(range: Option<Range>, pair: bool, head: string, fields: seq<string>, texts: seq<string>)
    requires head == VISITOR_HEAD || head == PROXY_HEAD
    requires texts == RangeLines(range, pair) + ([head] + fields) + (if range.Some? then [END_TEXT] else [])
    ensures var t := JoinLines(texts); t != [] && (t[0] == '[' || t[0] == '{')
  {
    hide RangeText;
    match range
    case None => assert texts[0] == head;
    case Some(r) => RangeEnds(r.local, if pair then Some(r.remote) else None);
  }

  /** What a file of tunnels says: the text of the tunnels, read line by line. */
  lemma TunnelsRoundTrip(ps: seq<Tunnel>)
    requires forall i :: 0 <= i < |ps| ==> Normal(ps[i])
    ensures var out := ReadText(FileText(ProxyTexts(ps)));
            && out.Some? && |out.value.proxies| == |ps|
            && forall i :: 0 <= i < |ps| ==>
                 ProxyFromBlock(out.value.proxies[i], ps[i].uid) == ps[i] && FrpSees(out.value.proxies[i], ps[i])
  {
    hide Normal, Feed, BlockOf, ProxyFromBlock, HasArray, Lines, BlockText, WithoutMark, FrpSees;
    ProxyTextsAt(ps);
    if ps == [] {
      EmptyFile();
    } else {
      FileSplits(ProxyTexts(ps));
      AllFeed(START, ps);
      BlocksAt(ps);
      forall i | 0 <= i < |ps| ensures ProxyFromBlock(BlockOf(ps[i]), ps[i].uid) == ps[i] && FrpSees(BlockOf(ps[i]), ps[i]) {
        BlockRoundTrip(ps[i]);
        BlockSeen(ps[i]);
      }
    }
  }

  lemma EmptyFile()
    ensures ReadText(FileText([])) == Some(START)
  {
    hide HasArray, Step, Lines, Feed;
    assert "" + "\n" == "" + "\n" + "";
    HasArrayApart("", "");
    EmptyHasNone();
    EmptyLine();
    LinesApart("", "");
    FeedApart(START, [""], [""]);
    BlankFeeds(START);
  }
}
