/** A visitor written to a file and read again is the same; so is a whole list of tunnels and
    visitors. */
module VisitorRoundTrip {
  import opened Wrappers
  import opened TomlStrings
  import opened TextLines
  import opened TomlText
  import opened TomlValues
  import opened DomainText
  import opened Tunnels
  import opened TunnelText
  import opened ValueReads
  import opened TunnelRoundTrip

  /** serverPorts: ports of the target tunnel of a range, empty when they are the same. */
  datatype Visitor = Visitor(
    uid: nat,
    name: string,
    kind: string,
    serverName: string,
    secretKey: string,
    bindAddr: string,
    bindPort: string,
    serverPorts: string,
    extras: seq<Extra>)

  // ---- Reading ----

  function VisitorFromBlock(b: Block, uid: nat): Visitor {
    var ranged := b.range.Some?;
    Visitor(uid,
      if ranged then StripLoop(Get(b, "name"), FIRST, 0) else Get(b, "name"),
      Or(Get(b, "type"), "stcp"),
      if ranged then StripLoop(Get(b, "serverName"), SECOND, 0) else Get(b, "serverName"),
      Get(b, "secretKey"),
      Or(Get(b, "bindAddr"), "127.0.0.1"),
      if ranged then b.range.value.local else IntText(Get(b, "bindPort")),
      if ranged && b.range.value.remote != b.range.value.local then b.range.value.remote else "",
      ExtrasOf(b.order, b.raw, VISITOR_KEYS))
  }

  // ---- Writing ----

  predicate Ranged(v: Visitor) {
    IsPortRange(v.bindPort)
  }

  function VisitorName(v: Visitor): string {
    if Ranged(v) then v.name + "-" + PORT_FIRST else v.name
  }

  function ServerName(v: Visitor): string {
    if Ranged(v) then v.serverName + "-" + PORT_SECOND else v.serverName
  }

  function VisitorFields(v: Visitor): seq<Field> {
    [ Field(true, "name", Str(VisitorName(v))),
      Field(true, "type", Str(v.kind)),
      Field(v.serverName != "", "serverName", Str(ServerName(v))),
      Field(v.secretKey != "", "secretKey", Str(v.secretKey)),
      Field(v.bindAddr != "", "bindAddr", Str(Unbracket(v.bindAddr))),
      Field(Ranged(v) || v.bindPort != "", "bindPort", if Ranged(v) then PORT_FIRST else v.bindPort) ]
  }

  function GenerateVisitor(v: Visitor): seq<string> {
    var body := [VISITOR_HEAD] + FieldLines(VisitorFields(v) + ExtraFields(v.extras));
    if Ranged(v) then [RangeText(v.bindPort, Some(Or(v.serverPorts, v.bindPort)))] + body + [END_TEXT] else body
  }

  function VisitorText(v: Visitor): string {
    JoinLines(GenerateVisitor(v))
  }

  /** A visitor as the page keeps it; no line of its text starts an array of tunnels. */
  predicate NormalVisitor(v: Visitor) {
    && v.kind != "" && PlainActions(v.kind) && PlainActions(VisitorName(v)) && PlainActions(ServerName(v))
    && PlainActions(v.secretKey) && v.bindAddr != "" && Unbracket(v.bindAddr) == v.bindAddr && PlainActions(v.bindAddr)
    && (if Ranged(v) then GoodRange(v.bindPort) && GoodRange(v.serverPorts) && v.serverPorts != v.bindPort
        else GoodPort(v.bindPort) && v.serverPorts == "")
    && GoodExtras(v.extras, VISITOR_KEYS) && !HasArray(VisitorText(v))
  }

  // ---- The block of a visitor ----

  function VisitorRange(v: Visitor): Option<Range> {
    if Ranged(v) then Some(Range(v.bindPort, Or(v.serverPorts, v.bindPort))) else None
  }

  function VisitorBlock(v: Visitor): Block {
    PutFields(EmptyBlock(VisitorRange(v)), VisitorFields(v) + ExtraFields(v.extras))
  }

  lemma VisitorKeysBare()
    ensures forall i :: 0 <= i < |VISITOR_KEYS| ==> BareKey(VISITOR_KEYS[i])
    ensures forall i, j :: 0 <= i < j < |VISITOR_KEYS| ==> VISITOR_KEYS[i] != VISITOR_KEYS[j]
  {
  }

  lemma VisitorFieldOneLine(v: Visitor, i: nat)
    requires NormalVisitor(v) && i < |VisitorFields(v)| && VisitorFields(v)[i].on
    ensures OneLine(VisitorFields(v)[i].raw)
  {
    hide OneLine, PlainActions, Unbracket, Str, IntText, Unquote, GoodExtras, IsPortRange, HasArray;
    StrOneLine(VisitorName(v));
    StrOneLine(v.kind);
    StrOneLine(ServerName(v));
    StrOneLine(v.secretKey);
    StrOneLine(v.bindAddr);
    PlainWord(PORT_FIRST);
  }

  lemma VisitorFieldsWritable(v: Visitor)
    requires NormalVisitor(v)
    ensures KeysAre(VisitorFields(v), VISITOR_KEYS) && Writable(VisitorFields(v))
  {
    hide WholeValue, NormalVisitor, Str, BareKey;
    var fs := VisitorFields(v);
    VisitorKeysBare();
    forall i | 0 <= i < |fs| && fs[i].on ensures WholeValue(fs[i].raw) {
      VisitorFieldOneLine(v, i);
      OneLineWhole(fs[i].raw);
    }
    forall i | 0 <= i < |fs| ensures fs[i].key == VISITOR_KEYS[i] {
    }
  }

  lemma VisitorWritable(v: Visitor)
    requires NormalVisitor(v)
    ensures KeysAre(VisitorFields(v), VISITOR_KEYS)
    ensures Writable(VisitorFields(v) + ExtraFields(v.extras))
  {
    hide Writable, VisitorFields, NormalVisitor, GoodExtras, KeysAre;
    VisitorFieldsWritable(v);
    ExtrasGood(v);
    WithExtras(VisitorFields(v), v.extras, VISITOR_KEYS);
  }

  lemma ExtrasGood(v: Visitor)
    requires NormalVisitor(v)
    ensures GoodExtras(v.extras, VISITOR_KEYS) && !HasArray(VisitorText(v))
  {
    hide PlainActions, HasArray, VisitorText, GoodRange;
  }

  /** The block of a visitor reads as that visitor. */
  lemma VisitorBlockReads(v: Visitor)
    requires NormalVisitor(v)
    ensures VisitorFromBlock(VisitorBlock(v), v.uid) == v
  {
    hide OneLine, PlainActions, Unbracket, Str, IntText, Unquote, GoodExtras, IsPortRange, StripLoop, ExtrasOf, PutFields, Get, HasArray, GoodRange;
    var fs := VisitorFields(v);
    VisitorWritable(v);
    BlockReads(fs, v.extras, VISITOR_KEYS, VisitorRange(v));
    assert fs[0].key == "name" && fs[1].key == "type" && fs[2].key == "serverName";
    assert fs[3].key == "secretKey" && fs[4].key == "bindAddr" && fs[5].key == "bindPort";
    UnquoteStrPlain(VisitorName(v));
    UnquoteStrPlain(v.kind);
    UnquoteStrPlain(ServerName(v));
    UnquoteStrPlain(v.secretKey);
    UnquoteStrPlain(v.bindAddr);
    NoPort();
    NothingToStrip();
    LoopTexts();
    StripRestores(v.name, PORT_FIRST, FIRST);
    StripRestores(v.serverName, PORT_SECOND, SECOND);
  }

  /** What frp finds in the block of a visitor, each setting under the name frp gives it. */
  ghost predicate VisitorSeen(b: Block, v: Visitor) {
    && Get(b, "type") == v.kind && Get(b, "secretKey") == v.secretKey && Get(b, "bindAddr") == v.bindAddr
    && (forall x :: x in v.extras ==> x.key in b.raw && b.raw[x.key] == x.raw)
    && if Ranged(v) then b.range == Some(Range(v.bindPort, if v.serverPorts == "" then v.bindPort else v.serverPorts))
       else
         && b.range == None && Get(b, "name") == v.name && Get(b, "serverName") == v.serverName
         && IntText(Get(b, "bindPort")) == v.bindPort
  }

  lemma VisitorBlockSeen(v: Visitor)
    requires NormalVisitor(v)
    ensures VisitorSeen(VisitorBlock(v), v)
  {
    hide OneLine, PlainActions, Unbracket, Str, IntText, Unquote, GoodExtras, IsPortRange, StripLoop, ExtrasOf, PutFields, Get, HasArray, GoodRange;
    var fs := VisitorFields(v);
    VisitorWritable(v);
    BlockReads(fs, v.extras, VISITOR_KEYS, VisitorRange(v));
    assert fs[0].key == "name" && fs[1].key == "type" && fs[2].key == "serverName";
    assert fs[3].key == "secretKey" && fs[4].key == "bindAddr" && fs[5].key == "bindPort";
    UnquoteStrPlain(VisitorName(v));
    UnquoteStrPlain(v.kind);
    UnquoteStrPlain(ServerName(v));
    UnquoteStrPlain(v.secretKey);
    UnquoteStrPlain(v.bindAddr);
    NoPort();
    ExtrasAreThere(VisitorBlock(v).order, VisitorBlock(v).raw, VISITOR_KEYS);
  }

  lemma NothingToStrip()
    ensures StripLoop("", SECOND, 0) == ""
  {
  }

  // ---- The text of a visitor ----

  lemma VisitorParts(v: Visitor)
    requires NormalVisitor(v)
    ensures VisitorRange(v).Some? ==> GoodRange(VisitorRange(v).value.local) && GoodRange(VisitorRange(v).value.remote)
    ensures GenerateVisitor(v) == RangeLines(VisitorRange(v), true) + ([VISITOR_HEAD] + FieldLines(VisitorFields(v) + ExtraFields(v.extras)))
                                  + (if VisitorRange(v).Some? then [END_TEXT] else [])
  {
    hide PlainActions, FieldLines, VisitorFields, RangeText, GoodExtras, HasArray;
  }

  lemma VisitorFeeds(st: Parsed, v: Visitor)
    requires NormalVisitor(v) && st.mode.Ready? && st.pending == None
    ensures Feed(st, Lines(VisitorText(v))) == NewBlock(st, true, VisitorBlock(v))
  {
    hide Feed, Lines, FieldLines, VisitorFields, ExtraFields, PutFields, NormalVisitor, RangeText, Ranged, Writable;
    VisitorWritable(v);
    VisitorParts(v);
    BlockFeeds(st, VisitorRange(v), true, VISITOR_HEAD, true, VisitorFields(v) + ExtraFields(v.extras), GenerateVisitor(v));
  }

  lemma VisitorIsBlock(v: Visitor)
    requires NormalVisitor(v)
    ensures BlockText(VisitorText(v))
  {
    hide HasArray, NormalVisitor, FieldLines, VisitorFields, Writable, RangeText, GoodRange, Ranged;
    VisitorWritable(v);
    VisitorParts(v);
    var fs := VisitorFields(v) + ExtraFields(v.extras);
    BlockTexts(VisitorRange(v), true, VISITOR_HEAD, fs, GenerateVisitor(v));
    NoReturnJoined(GenerateVisitor(v));
    FirstChar(VisitorRange(v), true, VISITOR_HEAD, FieldLines(fs), GenerateVisitor(v));
    ExtrasGood(v);
  }

  // ---- A whole file ----

  function VisitorTexts(vs: seq<Visitor>): seq<string> {
    if vs == [] then [] else [VisitorText(vs[0])] + VisitorTexts(vs[1..])
  }

  function VisitorBlocks(vs: seq<Visitor>): seq<Block> {
    if vs == [] then [] else [VisitorBlock(vs[0])] + VisitorBlocks(vs[1..])
  }

  lemma {:induction false} VisitorsFeed(st: Parsed, vs: seq<Visitor>)
    requires (forall i :: 0 <= i < |vs| ==> NormalVisitor(vs[i])) && st.mode.Ready? && st.pending == None
    ensures var out := Feed(st, FileLines(VisitorTexts(vs)));
            out.visitors == st.visitors + VisitorBlocks(vs) && out.proxies == st.proxies && out.mode.Ready?
    decreases |vs|
  {
    hide NormalVisitor, VisitorText, VisitorBlock, Step, Feed, VisitorBlocks, Lines;
    BlocksOfVisitors(vs);
    if vs == [] {
      FedNothing(st);
      assert st.visitors + [] == st.visitors;
    } else {
      assert st.visitors + VisitorBlocks(vs) == st.visitors + [VisitorBlock(vs[0])] + VisitorBlocks(vs[1..]);
      var st' := NewBlock(st, true, VisitorBlock(vs[0]));
      assert VisitorTexts(vs)[1..] == VisitorTexts(vs[1..]);
      VisitorFeeds(st, vs[0]);
      FeedApart(st, Lines(VisitorText(vs[0])) + [""], FileLines(VisitorTexts(vs[1..])));
      FeedApart(st, Lines(VisitorText(vs[0])), [""]);
      BlankFeeds(st');
      VisitorsFeed(st', vs[1..]);
    }
  }

  lemma BlocksOfVisitors(vs: seq<Visitor>)
    ensures VisitorBlocks(vs) == if vs == [] then [] else [VisitorBlock(vs[0])] + VisitorBlocks(vs[1..])
  {
    hide VisitorBlock;
  }

  lemma {:induction false} VisitorBlocksAt(vs: seq<Visitor>)
    ensures |VisitorBlocks(vs)| == |vs|
    ensures forall i :: 0 <= i < |vs| ==> VisitorBlocks(vs)[i] == VisitorBlock(vs[i])
  {
    hide VisitorBlock;
    if vs != [] {
      VisitorBlocksAt(vs[1..]);
    }
  }

  lemma {:induction false} VisitorTextsAt(vs: seq<Visitor>)
    requires forall i :: 0 <= i < |vs| ==> NormalVisitor(vs[i])
    ensures |VisitorTexts(vs)| == |vs| && forall i :: 0 <= i < |vs| ==> BlockText(VisitorTexts(vs)[i])
  {
    hide NormalVisitor, VisitorText, BlockText;
    if vs != [] {
      VisitorTextsAt(vs[1..]);
      VisitorIsBlock(vs[0]);
    }
  }

  lemma VisitorsRead(vs: seq<Visitor>)
    requires forall i :: 0 <= i < |vs| ==> NormalVisitor(vs[i])
    ensures var blocks := VisitorBlocks(vs);
            |blocks| == |vs| && forall i :: 0 <= i < |vs| ==>
              VisitorFromBlock(blocks[i], vs[i].uid) == vs[i] && VisitorSeen(blocks[i], vs[i])
  {
    hide NormalVisitor, VisitorBlock, VisitorFromBlock, VisitorSeen;
    VisitorBlocksAt(vs);
    forall i | 0 <= i < |vs|
      ensures VisitorFromBlock(VisitorBlock(vs[i]), vs[i].uid) == vs[i] && VisitorSeen(VisitorBlock(vs[i]), vs[i])
    {
      VisitorBlockReads(vs[i]);
      VisitorBlockSeen(vs[i]);
    }
  }

  lemma ProxiesRead(ps: seq<Tunnel>)
    requires forall i :: 0 <= i < |ps| ==> Normal(ps[i])
    ensures var blocks := BlocksOf(ps);
            |blocks| == |ps| && forall i :: 0 <= i < |ps| ==>
              ProxyFromBlock(blocks[i], ps[i].uid) == ps[i] && FrpSees(blocks[i], ps[i])
  {
    hide Normal, BlockOf, ProxyFromBlock, FrpSees;
    BlocksAt(ps);
    forall i | 0 <= i < |ps| ensures ProxyFromBlock(BlockOf(ps[i]), ps[i].uid) == ps[i] && FrpSees(BlockOf(ps[i]), ps[i]) {
      BlockRoundTrip(ps[i]);
      BlockSeen(ps[i]);
    }
  }

  lemma EmptyFileCrlf()
    ensures ReadText(Crlf(FileText([]))) == ReadText(FileText([]))
  {
    hide ReadText, Crlf;
    assert FileText([]) == "\n";
    CrlfReads("\n");
  }

  /** A file of tunnels, then visitors, reads as those tunnels and those visitors, with either kind of
      line ends. */
  lemma FileRoundTrip(ps: seq<Tunnel>, vs: seq<Visitor>)
    requires forall i :: 0 <= i < |ps| ==> Normal(ps[i])
    requires forall i :: 0 <= i < |vs| ==> NormalVisitor(vs[i])
    ensures var text := FileText(ProxyTexts(ps) + VisitorTexts(vs)); var out := ReadText(text);
            && ReadText(Crlf(text)) == out && out.Some? && |out.value.proxies| == |ps| && |out.value.visitors| == |vs|
            && (forall i :: 0 <= i < |ps| ==>
                  ProxyFromBlock(out.value.proxies[i], ps[i].uid) == ps[i] && FrpSees(out.value.proxies[i], ps[i]))
            && forall i :: 0 <= i < |vs| ==>
                 VisitorFromBlock(out.value.visitors[i], vs[i].uid) == vs[i] && VisitorSeen(out.value.visitors[i], vs[i])
  {
    hide Normal, NormalVisitor, Feed, BlocksOf, VisitorBlocks, ProxyFromBlock, VisitorFromBlock, HasArray, Lines, BlockText, WithoutMark,
      FileText, ProxyTexts, VisitorTexts, Crlf, FrpSees, VisitorSeen;
    ProxyTextsAt(ps);
    VisitorTextsAt(vs);
    ProxiesRead(ps);
    VisitorsRead(vs);
    var blocks := ProxyTexts(ps) + VisitorTexts(vs);
    if blocks == [] {
      EmptyFile();
      EmptyFileCrlf();
    } else {
      FileSplits(blocks);
      CrlfReads(FileText(blocks));
      FileApart(ProxyTexts(ps), VisitorTexts(vs));
      FeedApart(START, FileLines(ProxyTexts(ps)), FileLines(VisitorTexts(vs)));
      AllFeed(START, ps);
      VisitorsFeed(Feed(START, FileLines(ProxyTexts(ps))), vs);
      assert [] + BlocksOf(ps) == BlocksOf(ps) && [] + VisitorBlocks(vs) == VisitorBlocks(vs);
    }
  }
}
