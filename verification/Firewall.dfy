/** The firewall: rules compiled into packet filter sets and a chain of drops, and
    the page that predicts, for one address, which known ports are blocked. */
module Firewall {
  import opened Wrappers
  import opened RuleNets
  import Cidr
  import CidrLaws

  datatype Config = Config(enabled: bool, rules: seq<Rule>)

  /** A port the machine's frps opens, or a range it reserves; `frps` names the instance. */
  datatype Known = Known(span: PortRange, frps: string)

  // ---- Ports of a rule ----

  predicate Readable(rule: Rule) {
    rule.ports.Every? || rule.ports.ranges.Some?
  }

  predicate InRange(r: PortRange, port: int) {
    r.a <= port <= r.b
  }

  ghost predicate InSome(ranges: seq<PortRange>, port: int) {
    exists r :: r in ranges && InRange(r, port)
  }

  /** Does the rule cover the port? A rule for every port covers the known ones of its frps, or of each
      frps when it names none; the panel's own port is never covered. */
  ghost predicate Covers(rule: Rule, known: seq<Known>, panel: int, port: int) {
    && port != panel
    && match rule.ports
       case Every => exists k :: k in known && (rule.frps == "" || k.frps == rule.frps) && k.span.a <= port <= k.span.b
       case Listed(ranges) => ranges.Some? && exists r :: r in ranges.value && InRange(r, port)
  }

  /** The ranges of the known ports of one frps, or of each. */
  method KnownRanges(known: seq<Known>, frps: string) returns (ranges: seq<PortRange>)
    ensures forall port :: InSome(ranges, port) <==>
              exists k :: k in known && (frps == "" || k.frps == frps) && k.span.a <= port <= k.span.b
  {
    ranges := [];
    for i := 0 to |known|
      invariant forall r :: r in ranges <==> exists k :: 0 <= k < i && (frps == "" || known[k].frps == frps) && known[k].span == r
    {
      if frps == "" || known[i].frps == frps {
        ranges := ranges + [known[i].span];
      }
    }
    forall port
      ensures InSome(ranges, port) <==>
                exists k :: k in known && (frps == "" || k.frps == frps) && k.span.a <= port <= k.span.b
    {
      if k :| k in known && (frps == "" || k.frps == frps) && k.span.a <= port <= k.span.b {
        assert k.span in ranges && InRange(k.span, port);
      }
    }
  }

  method RuleRanges(rule: Rule, known: seq<Known>, panel: int) returns (out: Option<seq<PortRange>>)
    ensures out.Some? <==> Readable(rule)
    ensures out.Some? ==> forall port :: InSome(out.value, port) <==> Covers(rule, known, panel, port)
  {
    var ranges: seq<PortRange> := [];
    match rule.ports {
      case Every =>
        ranges := KnownRanges(known, rule.frps);
      case Listed(read) =>
        if read.None? {
          return None;
        }
        ranges := read.value;
    }
    assert forall port :: Covers(rule, known, panel, port) <==> port != panel && InSome(ranges, port);
    hide Covers;
    var kept: seq<PortRange> := [];
    for i := 0 to |ranges|
      invariant forall port :: InSome(kept, port) <==> port != panel && InSome(ranges[..i], port)
    {
      var r := ranges[i];
      var pieces := Carve(r, panel);
      forall port
        ensures InSome(kept + pieces, port) <==> port != panel && InSome(ranges[..i + 1], port)
      {
        assert ranges[..i + 1] == ranges[..i] + [r];
        SomeOfConcat(kept, pieces, port);
        SomeOfConcat(ranges[..i], [r], port);
      }
      kept := kept + pieces;
    }
    assert ranges[..|ranges|] == ranges;
    out := Some(kept);
  }

  lemma SomeOfConcat(a: seq<PortRange>, b: seq<PortRange>, port: int)
    ensures InSome(a + b, port) <==> InSome(a, port) || InSome(b, port)
  {
  }

  /** One range without the panel's port. */
  method Carve(r: PortRange, panel: int) returns (pieces: seq<PortRange>)
    ensures forall port :: InSome(pieces, port) <==> port != panel && InRange(r, port)
  {
    if r.a <= panel <= r.b {
      var left: seq<PortRange>, right: seq<PortRange> := [], [];
      if r.a < panel {
        left := [PortSpan(r.a, panel - 1)];
      }
      if panel < r.b {
        right := [PortSpan(panel + 1, r.b)];
      }
      pieces := left + right;
      forall port ensures InSome(pieces, port) <==> port != panel && InRange(r, port) {
        SomeOfConcat(left, right, port);
        assert InSome(left, port) <==> r.a <= port < panel by {
          if r.a <= port < panel { assert left[0] in left && InRange(left[0], port); }
        }
        assert InSome(right, port) <==> panel < port <= r.b by {
          if panel < port <= r.b { assert right[0] in right && InRange(right[0], port); }
        }
      }
    } else {
      pieces := [r];
      assert r in pieces;
    }
  }

  // ---- The packet filter ----

  datatype Protocol = Tcp | Udp | OtherProtocol

  datatype Packet = Packet(loopback: bool, new_: bool, localDestination: bool, protocol: Protocol,
                           family: Family, source: nat, port: int)

  datatype SetName = PortSet(rule: nat) | AddrSet(rule: nat, family: Family) | SeenSet(family: Family, id: string)

  datatype SetBody = PortBody(ranges: seq<PortRange>) | AddrBody(nets: seq<Cidr.Prefix>) | Dynamic(family: Family)

  datatype Guard = FromLoopback | NotNew | NotLocal | NotTcpUdp

  datatype Match = Match(family: Family, ports: SetName, outside: bool, addrs: SetName)

  datatype Line = Return(guard: Guard) | Update(when: Match, seen: SetName) | Drop(when: Match, comment: string)

  type Sets = map<SetName, SetBody>

  /** None: the table is only deleted, nothing is filtered. */
  datatype Table = Table(sets: Sets, chain: seq<Line>)

  const GUARDS: seq<Line> := [Return(FromLoopback), Return(NotNew), Return(NotLocal), Return(NotTcpUdp)]

  predicate GuardHits(g: Guard, p: Packet) {
    match g
    case FromLoopback => p.loopback
    case NotNew => !p.new_
    case NotLocal => !p.localDestination
    case NotTcpUdp => p.protocol == OtherProtocol
  }

  ghost predicate AddrIn(nets: seq<Cidr.Prefix>, family: Family, source: nat) {
    exists n :: n in nets && n.bits <= WidthOf(family) && Cidr.Contains(WidthOf(family), n, source)
  }

  ghost predicate Matches(sets: Sets, m: Match, p: Packet) {
    && p.family == m.family
    && m.ports in sets && sets[m.ports].PortBody? && InSome(sets[m.ports].ranges, p.port)
    && m.addrs in sets && sets[m.addrs].AddrBody?
    && (m.outside <==> !AddrIn(sets[m.addrs].nets, m.family, p.source))
  }

  /** What becomes of a packet: the comment of the drop it meets, if any, and the sets its address is
      recorded in. */
  datatype Outcome = Outcome(dropped: Option<string>, recorded: seq<SetName>)

  const ACCEPTED: Outcome := Outcome(None, [])

  /** First verdict wins; a full dynamic set only stops its own line. */
  ghost function RunChain(sets: Sets, chain: seq<Line>, p: Packet): Outcome {
    if chain == [] then ACCEPTED else
      match chain[0]
      case Return(g) => if GuardHits(g, p) then ACCEPTED else RunChain(sets, chain[1..], p)
      case Update(m, seen) =>
        var rest := RunChain(sets, chain[1..], p);
        if Matches(sets, m, p) then rest.(recorded := [seen] + rest.recorded) else rest
      case Drop(m, comment) => if Matches(sets, m, p) then Outcome(Some(comment), []) else RunChain(sets, chain[1..], p)
  }

  ghost function Run(table: Option<Table>, p: Packet): Outcome {
    if table.None? then ACCEPTED else RunChain(table.value.sets, table.value.chain, p)
  }

  ghost predicate Drops(table: Option<Table>, p: Packet) {
    Run(table, p).dropped.Some?
  }

  // ---- What the rules mean ----

  ghost predicate SourceListed(nets: seq<Net>, family: Family, source: nat) {
    exists n :: n in nets && n.family == family && n.prefix.bits <= WidthOf(family)
                && Cidr.Contains(WidthOf(family), n.prefix, source)
  }

  /** Is the address in a network of the rule? */
  ghost predicate RuleListed(reg: Registry, world: World, rule: Rule, family: Family, source: nat) {
    exists n :: RuleHas(reg, world, rule, n) && n.family == family && n.prefix.bits <= WidthOf(family)
                && Cidr.Contains(WidthOf(family), n.prefix, source)
  }

  lemma RuleListedByNets(reg: Registry, world: World, rule: Rule, nets: seq<Net>, family: Family, source: nat)
    requires forall n :: n in nets <==> RuleHas(reg, world, rule, n)
    ensures RuleListed(reg, world, rule, family, source) <==> SourceListed(nets, family, source)
  {
    hide RuleHas;
  }

  ghost predicate BlocksAddress(reg: Registry, world: World, rule: Rule, family: Family, source: nat) {
    rule.mode.Allow? <==> !RuleListed(reg, world, rule, family, source)
  }

  predicate RuleOn(rule: Rule) {
    rule.enabled.None? || rule.enabled.value
  }

  ghost predicate RuleDrops(reg: Registry, world: World, known: seq<Known>, panel: int, rule: Rule, p: Packet) {
    && Covers(rule, known, panel, p.port)
    && BlocksAddress(reg, world, rule, p.family, p.source)
  }

  ghost predicate Filtered(p: Packet) {
    !p.loopback && p.new_ && p.localDestination && p.protocol != OtherProtocol
  }

  ghost predicate ShouldDrop(reg: Registry, world: World, c: Config, known: seq<Known>, panel: int, p: Packet) {
    && c.enabled
    && Filtered(p)
    && exists r :: r in c.rules && RuleOn(r) && RuleDrops(reg, world, known, panel, r, p)
  }

  /** Every text the reader accepts names a network of its family. */
  ghost predicate SoundReader(reg: Registry) {
    forall t :: reg.parse(t).Some? ==> Cidr.Valid(WidthOf(reg.parse(t).value.family), reg.parse(t).value.prefix)
  }

  ghost predicate NetsValid(nets: seq<Net>) {
    forall n :: n in nets ==> Cidr.Valid(WidthOf(n.family), n.prefix)
  }

  lemma {:induction false} ParsedValid(reg: Registry, texts: seq<string>)
    requires SoundReader(reg)
    ensures NetsValid(ParseAll(reg.parse, texts))
  {
    if texts != [] {
      ParsedValid(reg, texts[1..]);
    }
  }

  lemma {:induction false} SourcesValid(reg: Registry, world: World, sources: seq<Source>)
    requires SoundReader(reg)
    ensures NetsValid(NetsOf(reg, world, sources))
  {
    if sources != [] {
      var s := sources[0];
      SourcesValid(reg, world, sources[1..]);
      if s.asn != 0 && s.asn in world.asnFetched {
        var e := reg.prefixes(s.asn, world.asnFetched[s.asn]);
        ParsedValid(reg, e.v4 + e.v6);
      }
      ParsedValid(reg, [s.cidr]);
    }
  }

  // ---- Chains put together ----

  ghost predicate NoReturn(chain: seq<Line>) {
    forall l :: l in chain ==> !l.Return?
  }

  ghost predicate SetsOf(sets: Sets, l: Line) {
    l.Return? || (l.when.ports in sets && l.when.addrs in sets)
  }

  ghost predicate Closed(sets: Sets, chain: seq<Line>) {
    forall l :: l in chain ==> SetsOf(sets, l)
  }

  ghost predicate Extends(sets: Sets, more: Sets) {
    forall k :: k in sets ==> k in more && more[k] == sets[k]
  }

  /** Two chains in a row: the second one decides what the first one leaves. */
  lemma {:induction false} ChainsJoin(sets: Sets, a: seq<Line>, b: seq<Line>, p: Packet)
    requires NoReturn(a)
    ensures RunChain(sets, a + b, p)
         == if RunChain(sets, a, p).dropped.Some? then RunChain(sets, a, p)
            else Outcome(RunChain(sets, b, p).dropped, RunChain(sets, a, p).recorded + RunChain(sets, b, p).recorded)
    decreases a
  {
    if a == [] {
      assert a + b == b;
    } else {
      assert (a + b)[1..] == a[1..] + b;
      assert a[0] in a;
      ChainsJoin(sets, a[1..], b, p);
      var first, second := RunChain(sets, a[1..], p), RunChain(sets, b, p);
      if a[0].Update? {
        assert [a[0].seen] + (first.recorded + second.recorded) == ([a[0].seen] + first.recorded) + second.recorded;
      }
    }
  }

  lemma {:induction false} MoreSets(sets: Sets, more: Sets, chain: seq<Line>, p: Packet)
    requires Closed(sets, chain) && Extends(sets, more)
    ensures RunChain(sets, chain, p) == RunChain(more, chain, p)
    decreases chain
  {
    if chain != [] {
      assert chain[0] in chain && SetsOf(sets, chain[0]);
      MoreSets(sets, more, chain[1..], p);
    }
  }

  lemma ReturnFirst(sets: Sets, g: Guard, rest: seq<Line>, p: Packet)
    ensures RunChain(sets, [Return(g)] + rest, p) == if GuardHits(g, p) then ACCEPTED else RunChain(sets, rest, p)
  {
    assert ([Return(g)] + rest)[1..] == rest;
  }

  lemma GuardsFirst(chain: seq<Line>)
    ensures GUARDS + chain
         == [Return(FromLoopback)] + ([Return(NotNew)] + ([Return(NotLocal)] + ([Return(NotTcpUdp)] + chain)))
  {
  }

  lemma GuardsDecide(sets: Sets, chain: seq<Line>, p: Packet)
    ensures RunChain(sets, GUARDS + chain, p) == if Filtered(p) then RunChain(sets, chain, p) else ACCEPTED
  {
    hide RunChain, GUARDS, ACCEPTED;
    var last := [Return(NotTcpUdp)] + chain;
    var local := [Return(NotLocal)] + last;
    var recent := [Return(NotNew)] + local;
    GuardsFirst(chain);
    ReturnFirst(sets, FromLoopback, recent, p);
    ReturnFirst(sets, NotNew, local, p);
    ReturnFirst(sets, NotLocal, last, p);
    ReturnFirst(sets, NotTcpUdp, chain, p);
  }

  // ---- One rule, one family ----

  method FamilyNets(nets: seq<Net>, family: Family) returns (sub: seq<Cidr.Prefix>)
    requires NetsValid(nets)
    ensures Cidr.AllValid(WidthOf(family), sub)
    ensures forall x: nat :: Cidr.InUnion(WidthOf(family), sub, x) <==> SourceListed(nets, family, x)
  {
    sub := [];
    for i := 0 to |nets|
      invariant Cidr.AllValid(WidthOf(family), sub)
      invariant forall p :: p in sub <==> exists k :: 0 <= k < i && nets[k] == Net(family, p)
    {
      assert nets[i] in nets;
      if nets[i].family == family {
        sub := sub + [nets[i].prefix];
      }
    }
    forall x: nat ensures Cidr.InUnion(WidthOf(family), sub, x) <==> SourceListed(nets, family, x) {
      if SourceListed(nets, family, x) {
        var n :| n in nets && n.family == family && n.prefix.bits <= WidthOf(family)
                 && Cidr.Contains(WidthOf(family), n.prefix, x);
        var k :| 0 <= k < |nets| && nets[k] == n;
        assert nets[k] == Net(family, n.prefix);
        assert n.prefix in sub;
      }
      if Cidr.InUnion(WidthOf(family), sub, x) {
        var q :| q in sub && Cidr.Contains(WidthOf(family), q, x);
        assert Net(family, q) in nets;
      }
    }
  }

  lemma EmptyUnion(w: nat, sub: seq<Cidr.Prefix>, x: nat)
    requires Cidr.AllValid(w, sub) && Cidr.IsCollapse(w, sub, [])
    ensures !Cidr.InUnion(w, sub, x)
  {
    CidrLaws.CollapseKeepsUnion(w, sub, []);
  }

  lemma RegroupedListed(family: Family, nets: seq<Net>, sub: seq<Cidr.Prefix>, elems: seq<Cidr.Prefix>, x: nat)
    requires Cidr.AllValid(WidthOf(family), sub) && Cidr.IsCollapse(WidthOf(family), sub, elems)
    requires Cidr.InUnion(WidthOf(family), sub, x) <==> SourceListed(nets, family, x)
    ensures AddrIn(elems, family, x) <==> SourceListed(nets, family, x)
  {
    var w := WidthOf(family);
    CidrLaws.CollapseKeepsUnion(w, sub, elems);
    assert Cidr.InUnion(w, sub, x) <==> Cidr.InUnion(w, elems, x);
  }

  ghost predicate FamilyDrops(ranges: seq<PortRange>, mode: Mode, nets: seq<Net>, family: Family, p: Packet) {
    && p.family == family
    && InSome(ranges, p.port)
    && (mode.Allow? <==> !SourceListed(nets, family, p.source))
  }

  /** The fate of a packet a rule drops: the rule's id names the drop, and with recording on the address
      goes to the rule's set of that family. */
  ghost function DropOf(rule: Rule, seen: bool, p: Packet): Outcome {
    Outcome(Some(rule.id), if seen then [SeenSet(p.family, rule.id)] else [])
  }

  /** The sets and lines of a rule for one family; `n` numbers the rule's sets. */
  method CompileFamily(sets: Sets, n: nat, rule: Rule, ranges: seq<PortRange>, nets: seq<Net>, family: Family, seen: bool)
    returns (more: Sets, lines: seq<Line>)
    requires NetsValid(nets)
    requires PortSet(n) in sets && sets[PortSet(n)] == PortBody(ranges)
    requires AddrSet(n, family) !in sets
    requires forall f, i :: SeenSet(f, i) in sets ==> sets[SeenSet(f, i)] == Dynamic(f)
    ensures Extends(sets, more) && NoReturn(lines) && Closed(more, lines)
    ensures forall k :: k in more ==> k in sets || k == AddrSet(n, family) || k.SeenSet?
    ensures forall f, i :: SeenSet(f, i) in more ==> more[SeenSet(f, i)] == Dynamic(f)
    ensures forall p :: RunChain(more, lines, p)
                     == if FamilyDrops(ranges, rule.mode, nets, family, p) then DropOf(rule, seen, p) else ACCEPTED
  {
    var sub := FamilyNets(nets, family);
    var elems := Cidr.Collapse(WidthOf(family), sub);
    more := sets[AddrSet(n, family) := AddrBody(elems)];
    lines := [];
    if rule.mode.Block? && elems == [] {
      forall p ensures !FamilyDrops(ranges, rule.mode, nets, family, p) {
        EmptyUnion(WidthOf(family), sub, p.source);
      }
      return;
    }
    var m := Match(family, PortSet(n), rule.mode.Allow?, AddrSet(n, family));
    if seen {
      more := more[SeenSet(family, rule.id) := Dynamic(family)];
      lines := [Update(m, SeenSet(family, rule.id))];
    }
    lines := lines + [Drop(m, rule.id)];
    forall p
      ensures RunChain(more, lines, p)
           == if FamilyDrops(ranges, rule.mode, nets, family, p) then DropOf(rule, seen, p) else ACCEPTED
    {
      RegroupedListed(family, nets, sub, elems, p.source);
      OneDrop(more, lines, m, rule.id, seen, SeenSet(family, rule.id), p);
    }
  }

  lemma OneDrop(sets: Sets, lines: seq<Line>, m: Match, id: string, seen: bool, u: SetName, p: Packet)
    requires lines == (if seen then [Update(m, u)] else []) + [Drop(m, id)]
    ensures RunChain(sets, lines, p)
         == if Matches(sets, m, p) then Outcome(Some(id), if seen then [u] else []) else ACCEPTED
  {
    var last := [Drop(m, id)];
    assert last[1..] == [];
    assert RunChain(sets, last, p) == if Matches(sets, m, p) then Outcome(Some(id), []) else ACCEPTED;
    if seen {
      assert lines[0] == Update(m, u) && lines[1..] == last;
    } else {
      assert lines == last;
    }
  }

  // Names the rules numbered from `n` on will use are still free.
  ghost predicate FreshFrom(sets: Sets, n: nat) {
    && (forall k :: k in sets && !k.SeenSet? ==> k.rule < n)
    && (forall f, i :: SeenSet(f, i) in sets ==> sets[SeenSet(f, i)] == Dynamic(f))
  }

  method CompileRule(cache: NetsCache, reg: Registry, world: World, sets: Sets, n: nat, rule: Rule,
                     known: seq<Known>, panel: int, seen: bool)
    returns (more: Sets, lines: seq<Line>)
    requires cache.Valid(reg) && SoundReader(reg) && FreshFrom(sets, n)
    modifies cache
    ensures cache.Valid(reg)
    ensures Extends(sets, more) && NoReturn(lines) && Closed(more, lines) && FreshFrom(more, n + 1)
    ensures forall p :: RunChain(more, lines, p)
                     == if RuleDrops(reg, world, known, panel, rule, p) then DropOf(rule, seen, p) else ACCEPTED
  {
    hide RunChain, SoundReader, FamilyDrops, RuleDrops, InSome, Covers, RuleHas, Nets, DropOf;
    more, lines := sets, [];
    var ranges := RuleRanges(rule, known, panel);
    if ranges.None? || ranges.value == [] {
      NoRanges(reg, world, known, panel, rule, sets, ranges);
      return;
    }
    var nets := cache.RuleNets(reg, world, rule);
    NetsMeanValid(reg, world, rule);
    more := more[PortSet(n) := PortBody(ranges.value)];
    var four, six;
    more, four := CompileFamily(more, n, rule, ranges.value, nets, V4, seen);
    ghost var mid := more;
    more, six := CompileFamily(more, n, rule, ranges.value, nets, V6, seen);
    lines := four + six;
    forall p
      ensures RunChain(more, lines, p)
           == if RuleDrops(reg, world, known, panel, rule, p) then DropOf(rule, seen, p) else ACCEPTED
    {
      ChainsJoin(more, four, six, p);
      MoreSets(mid, more, four, p);
      BothFamilies(reg, world, known, panel, rule, ranges.value, nets, p);
      JoinedDrop(rule, seen, p);
    }
  }

  lemma JoinedDrop(rule: Rule, seen: bool, p: Packet)
    ensures DropOf(rule, seen, p).dropped.Some? && ACCEPTED.dropped.None?
    ensures Outcome(DropOf(rule, seen, p).dropped, ACCEPTED.recorded + DropOf(rule, seen, p).recorded) == DropOf(rule, seen, p)
    ensures Outcome(ACCEPTED.dropped, ACCEPTED.recorded + ACCEPTED.recorded) == ACCEPTED
  {
  }

  lemma NetsMeanValid(reg: Registry, world: World, rule: Rule)
    requires SoundReader(reg)
    ensures NetsValid(Nets(reg, world, rule))
  {
    SourcesValid(reg, world, RuleSources(reg, world, rule));
  }

  lemma NoRanges(reg: Registry, world: World, known: seq<Known>, panel: int, rule: Rule, sets: Sets, ranges: Option<seq<PortRange>>)
    requires ranges.None? || ranges.value == []
    requires ranges.Some? <==> Readable(rule)
    requires ranges.Some? ==> forall port :: InSome(ranges.value, port) <==> Covers(rule, known, panel, port)
    ensures forall p :: RunChain(sets, [], p) == ACCEPTED && !RuleDrops(reg, world, known, panel, rule, p)
  {
    forall p ensures !RuleDrops(reg, world, known, panel, rule, p) {
      assert ranges.Some? ==> !InSome(ranges.value, p.port);
    }
  }

  // A rule drops what its lines drop for the family of the packet.
  lemma BothFamilies(reg: Registry, world: World, known: seq<Known>, panel: int, rule: Rule, ranges: seq<PortRange>,
                     nets: seq<Net>, p: Packet)
    requires forall n :: n in nets <==> RuleHas(reg, world, rule, n)
    requires forall port :: InSome(ranges, port) <==> Covers(rule, known, panel, port)
    ensures RuleDrops(reg, world, known, panel, rule, p)
       <==> FamilyDrops(ranges, rule.mode, nets, V4, p) || FamilyDrops(ranges, rule.mode, nets, V6, p)
  {
    hide RuleHas, RuleListed, SourceListed;
    assert InSome(ranges, p.port) <==> Covers(rule, known, panel, p.port);
    RuleListedByNets(reg, world, rule, nets, p.family, p.source);
  }

  /** The first enabled rule, in the order of the configuration, that drops the packet. */
  ghost predicate FirstToDrop(reg: Registry, world: World, rules: seq<Rule>, known: seq<Known>, panel: int, p: Packet, i: int) {
    && 0 <= i < |rules| && RuleOn(rules[i]) && RuleDrops(reg, world, known, panel, rules[i], p)
    && forall j :: 0 <= j < i && RuleOn(rules[j]) ==> !RuleDrops(reg, world, known, panel, rules[j], p)
  }

  /** The table that replaces the previous one. For every packet it drops exactly what the
      enabled rules ask for, whether or not blocked addresses are recorded. The drop carries the id of
      the first rule that asks for it, and that rule alone records the address. */
  method Ruleset(cache: NetsCache, reg: Registry, world: World, c: Config, known: seq<Known>, panel: int, seen: bool)
    returns (table: Option<Table>)
    requires cache.Valid(reg) && SoundReader(reg)
    modifies cache
    ensures cache.Valid(reg)
    ensures forall p :: Drops(table, p) <==> ShouldDrop(reg, world, c, known, panel, p)
    ensures forall p :: !ShouldDrop(reg, world, c, known, panel, p) ==> Run(table, p).recorded == []
    ensures forall p, i :: ShouldDrop(reg, world, c, known, panel, p) && FirstToDrop(reg, world, c.rules, known, panel, p, i) ==>
              Run(table, p) == Outcome(Some(c.rules[i].id), if seen then [SeenSet(p.family, c.rules[i].id)] else [])
  {
    hide Closed, NoReturn, FreshFrom, RunChain, RuleDrops, SoundReader, GuardHits;
    var rules, places := EnabledRules(c);
    var sets, chain := CompileRules(cache, reg, world, rules, known, panel, seen);
    table := if chain == [] then None else Some(Table(sets, GUARDS + chain));
    forall p ensures Run(table, p) == if Filtered(p) then RunChain(sets, chain, p) else ACCEPTED {
      GuardsDecide(sets, chain, p);
      NothingDrops(sets, p);
    }
    hide Run;
    forall p
      ensures Drops(table, p) <==> ShouldDrop(reg, world, c, known, panel, p)
      ensures !ShouldDrop(reg, world, c, known, panel, p) ==> Run(table, p).recorded == []
    {
      assert Fate(reg, world, rules, known, panel, seen, p, RunChain(sets, chain, p));
      DropsByPlace(reg, world, c, rules, places, known, panel, p);
    }
    forall p, i | ShouldDrop(reg, world, c, known, panel, p) && FirstToDrop(reg, world, c.rules, known, panel, p, i)
      ensures Run(table, p) == DropOf(c.rules[i], seen, p)
    {
      assert Fate(reg, world, rules, known, panel, seen, p, RunChain(sets, chain, p));
      FirstByPlace(reg, world, c, rules, places, known, panel, seen, p, i, RunChain(sets, chain, p));
    }
  }

  lemma NothingDrops(sets: Sets, p: Packet)
    ensures RunChain(sets, [], p) == ACCEPTED
  {
  }

  /** The enabled rules and where they stand in the configuration. */
  ghost predicate Enabled(c: Config, rules: seq<Rule>, places: seq<int>) {
    && |places| == |rules|
    && (forall k :: 0 <= k < |rules| ==> 0 <= places[k] < |c.rules| && rules[k] == c.rules[places[k]] && RuleOn(rules[k]))
    && (forall k, l :: 0 <= k < l < |rules| ==> places[k] < places[l])
    && (rules != [] ==> c.enabled)
    && (forall j :: 0 <= j < |c.rules| && c.enabled && RuleOn(c.rules[j]) ==> j in places)
  }

  method EnabledRules(c: Config) returns (rules: seq<Rule>, ghost places: seq<int>)
    ensures Enabled(c, rules, places)
  {
    rules, places := [], [];
    if c.enabled {
      for i := 0 to |c.rules|
        invariant |places| == |rules|
        invariant forall k :: 0 <= k < |rules| ==> 0 <= places[k] < i && rules[k] == c.rules[places[k]] && RuleOn(rules[k])
        invariant forall k, l :: 0 <= k < l < |rules| ==> places[k] < places[l]
        invariant forall j :: 0 <= j < i && RuleOn(c.rules[j]) ==> j in places
      {
        if RuleOn(c.rules[i]) {
          rules, places := rules + [c.rules[i]], places + [i];
        }
      }
    }
  }

  lemma DropsByPlace(reg: Registry, world: World, c: Config, rules: seq<Rule>, places: seq<int>, known: seq<Known>,
                     panel: int, p: Packet)
    requires Enabled(c, rules, places)
    ensures ShouldDrop(reg, world, c, known, panel, p)
       <==> Filtered(p) && exists r :: r in rules && RuleDrops(reg, world, known, panel, r, p)
  {
    hide RuleDrops, Filtered;
    if ShouldDrop(reg, world, c, known, panel, p) {
      var r :| r in c.rules && RuleOn(r) && RuleDrops(reg, world, known, panel, r, p);
      var j :| 0 <= j < |c.rules| && c.rules[j] == r;
      assert j in places;
      var k :| 0 <= k < |places| && places[k] == j;
      assert rules[k] == r;
    }
  }

  lemma FirstByPlace(reg: Registry, world: World, c: Config, rules: seq<Rule>, places: seq<int>, known: seq<Known>,
                     panel: int, seen: bool, p: Packet, i: int, o: Outcome)
    requires Enabled(c, rules, places) && c.enabled
    requires FirstToDrop(reg, world, c.rules, known, panel, p, i)
    requires Fate(reg, world, rules, known, panel, seen, p, o)
    ensures o == DropOf(c.rules[i], seen, p)
  {
    hide RuleDrops, DropOf;
    assert i in places;
    var k :| 0 <= k < |places| && places[k] == i;
    assert rules[k] in rules && RuleDrops(reg, world, known, panel, rules[k], p);
    var f :| FirstOf(reg, world, rules, known, panel, p, f) && o == DropOf(rules[f], seen, p);
    assert places[f] >= i;
    assert f == k;
  }

  ghost predicate FirstOf(reg: Registry, world: World, rules: seq<Rule>, known: seq<Known>, panel: int, p: Packet, i: int) {
    && 0 <= i < |rules| && RuleDrops(reg, world, known, panel, rules[i], p)
    && forall j :: 0 <= j < i ==> !RuleDrops(reg, world, known, panel, rules[j], p)
  }

  /** What becomes of a packet under a list of rules: the first one that drops it decides. */
  ghost predicate Fate(reg: Registry, world: World, rules: seq<Rule>, known: seq<Known>, panel: int, seen: bool, p: Packet, o: Outcome) {
    if exists r :: r in rules && RuleDrops(reg, world, known, panel, r, p) then
      exists i :: FirstOf(reg, world, rules, known, panel, p, i) && o == DropOf(rules[i], seen, p)
    else o == ACCEPTED
  }

  /** The sets and lines of every rule in turn. */
  method CompileRules(cache: NetsCache, reg: Registry, world: World, rules: seq<Rule>, known: seq<Known>, panel: int, seen: bool)
    returns (sets: Sets, chain: seq<Line>)
    requires cache.Valid(reg) && SoundReader(reg)
    modifies cache
    ensures cache.Valid(reg)
    ensures NoReturn(chain) && Closed(sets, chain)
    ensures forall p :: Fate(reg, world, rules, known, panel, seen, p, RunChain(sets, chain, p))
  {
    hide RuleDrops, SoundReader, RunChain, Fate, DropOf;
    sets, chain := map[], [];
    forall p ensures Fate(reg, world, rules[..0], known, panel, seen, p, RunChain(sets, chain, p)) {
      NothingDrops(sets, p);
      NoRuleDrops(reg, world, known, panel, seen, p);
    }
    for n := 0 to |rules|
      invariant cache.Valid(reg)
      invariant NoReturn(chain) && Closed(sets, chain) && FreshFrom(sets, n)
      invariant forall p :: Fate(reg, world, rules[..n], known, panel, seen, p, RunChain(sets, chain, p))
    {
      var more, lines := CompileRule(cache, reg, world, sets, n, rules[n], known, panel, seen);
      assert rules[..n + 1] == rules[..n] + [rules[n]];
      forall p
        ensures Fate(reg, world, rules[..n + 1], known, panel, seen, p, RunChain(more, chain + lines, p))
      {
        ChainsJoin(more, chain, lines, p);
        MoreSets(sets, more, chain, p);
        FateNext(reg, world, rules[..n], rules[n], known, panel, seen, p, RunChain(sets, chain, p));
      }
      sets, chain := more, chain + lines;
    }
    assert rules[..|rules|] == rules;
  }

  lemma NoRuleDrops(reg: Registry, world: World, known: seq<Known>, panel: int, seen: bool, p: Packet)
    ensures Fate(reg, world, [], known, panel, seen, p, ACCEPTED)
  {
  }

  // One more rule decides when none before it did.
  lemma FateNext(reg: Registry, world: World, rules: seq<Rule>, r: Rule, known: seq<Known>, panel: int, seen: bool,
                 p: Packet, o: Outcome)
    requires Fate(reg, world, rules, known, panel, seen, p, o)
    ensures var next := if RuleDrops(reg, world, known, panel, r, p) then DropOf(r, seen, p) else ACCEPTED;
            Fate(reg, world, rules + [r], known, panel, seen, p,
                 if o.dropped.Some? then o else Outcome(next.dropped, o.recorded + next.recorded))
  {
    hide RuleDrops;
    var all := rules + [r];
    assert r in all;
    if exists s :: s in rules && RuleDrops(reg, world, known, panel, s, p) {
      var i :| FirstOf(reg, world, rules, known, panel, p, i) && o == DropOf(rules[i], seen, p);
      assert all[i] == rules[i] && FirstOf(reg, world, all, known, panel, p, i);
    } else if RuleDrops(reg, world, known, panel, r, p) {
      assert all[|rules|] == r;
      forall j | 0 <= j < |rules| ensures !RuleDrops(reg, world, known, panel, all[j], p) {
        assert all[j] == rules[j];
      }
      assert FirstOf(reg, world, all, known, panel, p, |rules|);
    }
  }

  // ---- The verdict page ----

  datatype Blocker = Blocker(ranges: seq<PortRange>, name: string)

  function Label(rule: Rule): string {
    if rule.name != "" then rule.name else rule.id
  }

  ghost predicate Overlaps(rule: Rule, known: seq<Known>, panel: int, span: PortRange) {
    exists port :: InRange(span, port) && Covers(rule, known, panel, port)
  }

  /** The labels of the rules that block the address on some port of the span, in rule order. */
  ghost function BlockedBy(reg: Registry, world: World, rules: seq<Rule>, known: seq<Known>, panel: int,
                           family: Family, source: nat, span: PortRange): seq<string> {
    if rules == [] then []
    else (if RuleOn(rules[0]) && BlocksAddress(reg, world, rules[0], family, source)
             && Overlaps(rules[0], known, panel, span) then [Label(rules[0])] else [])
         + BlockedBy(reg, world, rules[1..], known, panel, family, source, span)
  }

  predicate Touches(r: PortRange, span: PortRange) {
    r.a <= span.b && span.a <= r.b
  }

  // Two ranges that touch have a port in common.
  lemma TouchMeansCommonPort(ranges: seq<PortRange>, span: PortRange)
    ensures (exists r :: r in ranges && Touches(r, span)) <==> (exists port :: InRange(span, port) && InSome(ranges, port))
  {
    if r :| r in ranges && Touches(r, span) {
      var port := if r.a > span.a then r.a else span.a;
      assert InRange(r, port) && InRange(span, port) && InSome(ranges, port);
    }
  }

  /** Is the address in the networks? The search stops at the first one. */
  method IsListed(nets: seq<Net>, family: Family, source: nat) returns (listed: bool)
    requires NetsValid(nets)
    ensures listed <==> SourceListed(nets, family, source)
  {
    listed := false;
    for i := 0 to |nets|
      invariant !listed
      invariant forall k :: 0 <= k < i ==> !(nets[k].family == family && nets[k].prefix.bits <= WidthOf(family)
                                             && Cidr.Contains(WidthOf(family), nets[k].prefix, source))
    {
      assert nets[i] in nets;
      if nets[i].family == family && Cidr.Contains(WidthOf(family), nets[i].prefix, source) {
        return true;
      }
    }
  }

  ghost predicate BlockerOf(reg: Registry, world: World, known: seq<Known>, panel: int, rule: Rule, b: Blocker) {
    && b.name == Label(rule)
    && forall port :: InSome(b.ranges, port) <==> Covers(rule, known, panel, port)
  }

  // The blockers kept for a list of rules: one for each rule that blocks the address, in order.
  ghost predicate BlockersOf(reg: Registry, world: World, rules: seq<Rule>, known: seq<Known>, panel: int,
                             family: Family, source: nat, bs: seq<Blocker>)
    decreases rules
  {
    if rules == [] then bs == []
    else
      var r := rules[|rules| - 1];
      var before := rules[..|rules| - 1];
      if RuleOn(r) && BlocksAddress(reg, world, r, family, source) && Readable(r) then
        bs != [] && BlockerOf(reg, world, known, panel, r, bs[|bs| - 1])
        && BlockersOf(reg, world, before, known, panel, family, source, bs[..|bs| - 1])
      else BlockersOf(reg, world, before, known, panel, family, source, bs)
  }

  lemma {:induction false} BlockedByJoin(reg: Registry, world: World, rules: seq<Rule>, r: Rule, known: seq<Known>,
                                         panel: int, family: Family, source: nat, span: PortRange)
    ensures BlockedBy(reg, world, rules + [r], known, panel, family, source, span)
         == BlockedBy(reg, world, rules, known, panel, family, source, span)
            + BlockedBy(reg, world, [r], known, panel, family, source, span)
    decreases rules
  {
    if rules == [] {
      assert [] + [r] == [r];
    } else {
      assert (rules + [r])[1..] == rules[1..] + [r];
      BlockedByJoin(reg, world, rules[1..], r, known, panel, family, source, span);
    }
  }

  /** The labels shown for a range: those of the rules, in their order, that are enabled and drop a packet
      from the address to some port of the range. A rule without a name is shown by its id. */
  ghost predicate Shown(reg: Registry, world: World, rules: seq<Rule>, known: seq<Known>, panel: int,
                        family: Family, source: nat, span: PortRange, labels: seq<string>) {
    exists places :: ShownAt(reg, world, rules, known, panel, family, source, span, labels, places)
  }

  ghost predicate ShownAt(reg: Registry, world: World, rules: seq<Rule>, known: seq<Known>, panel: int,
                          family: Family, source: nat, span: PortRange, labels: seq<string>, places: seq<int>) {
    && |places| == |labels|
    && (forall k :: 0 <= k < |places| ==>
          0 <= places[k] < |rules|
          && labels[k] == (if rules[places[k]].name != "" then rules[places[k]].name else rules[places[k]].id)
          && RuleOn(rules[places[k]]) && DropsInSpan(reg, world, rules[places[k]], known, panel, family, source, span))
    && (forall k, l :: 0 <= k < l < |places| ==> places[k] < places[l])
    && (forall j :: 0 <= j < |rules| && RuleOn(rules[j]) && DropsInSpan(reg, world, rules[j], known, panel, family, source, span) ==>
          exists k :: 0 <= k < |places| && places[k] == j)
  }

  ghost predicate DropsInSpan(reg: Registry, world: World, rule: Rule, known: seq<Known>, panel: int, family: Family,
                              source: nat, span: PortRange) {
    exists port :: InRange(span, port) && RuleDrops(reg, world, known, panel, rule, External(Tcp, family, source, port))
  }

  lemma BlocksMeansDrops(reg: Registry, world: World, r: Rule, known: seq<Known>, panel: int, family: Family, source: nat,
                         span: PortRange)
    ensures BlocksAddress(reg, world, r, family, source) && Overlaps(r, known, panel, span)
       <==> DropsInSpan(reg, world, r, known, panel, family, source, span)
  {
    hide BlocksAddress, Covers;
    if BlocksAddress(reg, world, r, family, source) && Overlaps(r, known, panel, span) {
      var port :| InRange(span, port) && Covers(r, known, panel, port);
      assert RuleDrops(reg, world, known, panel, r, External(Tcp, family, source, port));
    }
  }

  lemma ShownPlus(reg: Registry, world: World, rules: seq<Rule>, r: Rule, known: seq<Known>, panel: int, family: Family,
                  source: nat, span: PortRange, labels: seq<string>, places: seq<int>)
    requires ShownAt(reg, world, rules, known, panel, family, source, span, labels, places)
    requires RuleOn(r) && DropsInSpan(reg, world, r, known, panel, family, source, span)
    ensures ShownAt(reg, world, rules + [r], known, panel, family, source, span, labels + [Label(r)], places + [|rules|])
  {
    hide DropsInSpan, RuleOn;
    var n, all, more := |rules|, rules + [r], places + [|rules|];
    forall j | 0 <= j < |all| && RuleOn(all[j]) && DropsInSpan(reg, world, all[j], known, panel, family, source, span)
      ensures exists k :: 0 <= k < |more| && more[k] == j
    {
      if j == n {
        assert more[|places|] == n;
      } else {
        assert all[j] == rules[j];
        var k :| 0 <= k < |places| && places[k] == j;
        assert more[k] == j;
      }
    }
  }

  lemma ShownStays(reg: Registry, world: World, rules: seq<Rule>, r: Rule, known: seq<Known>, panel: int, family: Family,
                   source: nat, span: PortRange, labels: seq<string>, places: seq<int>)
    requires ShownAt(reg, world, rules, known, panel, family, source, span, labels, places)
    requires !(RuleOn(r) && DropsInSpan(reg, world, r, known, panel, family, source, span))
    ensures ShownAt(reg, world, rules + [r], known, panel, family, source, span, labels, places)
  {
    hide DropsInSpan, RuleOn;
    var all := rules + [r];
    forall j | 0 <= j < |all| && RuleOn(all[j]) && DropsInSpan(reg, world, all[j], known, panel, family, source, span)
      ensures exists k :: 0 <= k < |places| && places[k] == j
    {
      assert all[|rules|] == r;
      assert j < |rules| && all[j] == rules[j];
    }
  }

  lemma ShownNext(reg: Registry, world: World, rules: seq<Rule>, r: Rule, known: seq<Known>, panel: int, family: Family,
                  source: nat, span: PortRange, labels: seq<string>)
    requires Shown(reg, world, rules, known, panel, family, source, span, labels)
    ensures Shown(reg, world, rules + [r], known, panel, family, source, span,
                  if RuleOn(r) && DropsInSpan(reg, world, r, known, panel, family, source, span)
                  then labels + [Label(r)] else labels)
  {
    hide DropsInSpan, RuleOn, ShownAt, Label;
    var places :| ShownAt(reg, world, rules, known, panel, family, source, span, labels, places);
    if RuleOn(r) && DropsInSpan(reg, world, r, known, panel, family, source, span) {
      ShownPlus(reg, world, rules, r, known, panel, family, source, span, labels, places);
    } else {
      ShownStays(reg, world, rules, r, known, panel, family, source, span, labels, places);
    }
  }

  lemma {:induction false} BlockedByIsShown(reg: Registry, world: World, rules: seq<Rule>, known: seq<Known>, panel: int,
                                            family: Family, source: nat, span: PortRange)
    ensures Shown(reg, world, rules, known, panel, family, source, span,
                  BlockedBy(reg, world, rules, known, panel, family, source, span))
    decreases rules
  {
    if rules == [] {
      assert ShownAt(reg, world, rules, known, panel, family, source, span, [], []);
    } else {
      hide Shown, BlockedBy, Overlaps, BlocksAddress, DropsInSpan;
      var n := |rules| - 1;
      var r, before := rules[n], rules[..n];
      assert rules == before + [r];
      BlockedByIsShown(reg, world, before, known, panel, family, source, span);
      BlockedByNext(reg, world, before, r, known, panel, family, source, span);
      BlocksMeansDrops(reg, world, r, known, panel, family, source, span);
      ShownNext(reg, world, before, r, known, panel, family, source, span,
                BlockedBy(reg, world, before, known, panel, family, source, span));
    }
  }

  lemma BlockedByNext(reg: Registry, world: World, rules: seq<Rule>, r: Rule, known: seq<Known>, panel: int, family: Family,
                      source: nat, span: PortRange)
    ensures BlockedBy(reg, world, rules + [r], known, panel, family, source, span)
         == var labels := BlockedBy(reg, world, rules, known, panel, family, source, span);
            if RuleOn(r) && BlocksAddress(reg, world, r, family, source) && Overlaps(r, known, panel, span)
            then labels + [Label(r)] else labels
  {
    hide BlocksAddress, Overlaps, RuleOn;
    BlockedByJoin(reg, world, rules, r, known, panel, family, source, span);
    assert [r][1..] == [];
  }

  ghost function NamesTouching(bs: seq<Blocker>, span: PortRange): seq<string> {
    if bs == [] then []
    else NamesTouching(bs[..|bs| - 1], span)
         + if exists r :: r in bs[|bs| - 1].ranges && Touches(r, span) then [bs[|bs| - 1].name] else []
  }

  lemma {:induction false} NamesAreBlockers(reg: Registry, world: World, rules: seq<Rule>, known: seq<Known>, panel: int,
                                            family: Family, source: nat, bs: seq<Blocker>, span: PortRange)
    requires BlockersOf(reg, world, rules, known, panel, family, source, bs)
    ensures NamesTouching(bs, span) == BlockedBy(reg, world, rules, known, panel, family, source, span)
    decreases rules
  {
    if rules != [] {
      var r, before := rules[|rules| - 1], rules[..|rules| - 1];
      assert rules == before + [r];
      BlockedByJoin(reg, world, before, r, known, panel, family, source, span);
      if RuleOn(r) && BlocksAddress(reg, world, r, family, source) && Readable(r) {
        TouchMeansCommonPort(bs[|bs| - 1].ranges, span);
        NamesAreBlockers(reg, world, before, known, panel, family, source, bs[..|bs| - 1], span);
      } else {
        NamesAreBlockers(reg, world, before, known, panel, family, source, bs, span);
      }
    }
  }

  method Blockers(cache: NetsCache, reg: Registry, world: World, rules: seq<Rule>, known: seq<Known>, panel: int,
                  family: Family, source: nat)
    returns (bs: seq<Blocker>)
    requires cache.Valid(reg) && SoundReader(reg)
    modifies cache
    ensures cache.Valid(reg)
    ensures BlockersOf(reg, world, rules, known, panel, family, source, bs)
  {
    hide BlockersOf, BlocksAddress, BlockerOf, SoundReader, SourceListed;
    bs := [];
    assert BlockersOf(reg, world, rules[..0], known, panel, family, source, bs) by { NoBlockers(reg, world, known, panel, family, source); }
    for i := 0 to |rules|
      invariant cache.Valid(reg)
      invariant BlockersOf(reg, world, rules[..i], known, panel, family, source, bs)
    {
      var rule := rules[i];
      assert rules[..i + 1] == rules[..i] + [rule];
      BlockersNext(reg, world, rules[..i], rule, known, panel, family, source, bs);
      if !RuleOn(rule) {
        continue;
      }
      var ranges := RuleRanges(rule, known, panel);
      if ranges.None? {
        continue;
      }
      var nets := cache.RuleNets(reg, world, rule);
      NetsMeanValid(reg, world, rule);
      var listed := IsListed(nets, family, source);
      ListedBlocks(reg, world, rule, family, source, nets, listed);
      if rule.mode.Allow? != listed {
        RangesBlock(reg, world, known, panel, rule, ranges.value);
        bs := bs + [Blocker(ranges.value, Label(rule))];
      }
    }
    assert rules[..|rules|] == rules;
  }

  lemma NoBlockers(reg: Registry, world: World, known: seq<Known>, panel: int, family: Family, source: nat)
    ensures BlockersOf(reg, world, [], known, panel, family, source, [])
  {
  }

  // One more rule: its blocker, if it blocks, or none.
  lemma BlockersNext(reg: Registry, world: World, rules: seq<Rule>, rule: Rule, known: seq<Known>, panel: int,
                     family: Family, source: nat, bs: seq<Blocker>)
    requires BlockersOf(reg, world, rules, known, panel, family, source, bs)
    ensures if RuleOn(rule) && BlocksAddress(reg, world, rule, family, source) && Readable(rule) then
              forall b :: BlockerOf(reg, world, known, panel, rule, b) ==>
                BlockersOf(reg, world, rules + [rule], known, panel, family, source, bs + [b])
            else BlockersOf(reg, world, rules + [rule], known, panel, family, source, bs)
  {
    hide BlocksAddress, BlockerOf;
    assert (rules + [rule])[..|rules|] == rules;
    forall b ensures (bs + [b])[..|bs|] == bs {
    }
  }

  lemma ListedBlocks(reg: Registry, world: World, rule: Rule, family: Family, source: nat, nets: seq<Net>, listed: bool)
    requires (forall n :: n in nets <==> RuleHas(reg, world, rule, n)) && (listed <==> SourceListed(nets, family, source))
    ensures BlocksAddress(reg, world, rule, family, source) <==> rule.mode.Allow? != listed
  {
    hide RuleHas, SourceListed, RuleListed;
    RuleListedByNets(reg, world, rule, nets, family, source);
  }

  lemma RangesBlock(reg: Registry, world: World, known: seq<Known>, panel: int, rule: Rule, ranges: seq<PortRange>)
    requires forall port :: InSome(ranges, port) <==> Covers(rule, known, panel, port)
    ensures BlockerOf(reg, world, known, panel, rule, Blocker(ranges, Label(rule)))
  {
  }

  method TouchesAny(ranges: seq<PortRange>, span: PortRange) returns (touched: bool)
    ensures touched <==> exists r :: r in ranges && Touches(r, span)
  {
    for k := 0 to |ranges|
      invariant forall m :: 0 <= m < k ==> !Touches(ranges[m], span)
    {
      if Touches(ranges[k], span) {
        return true;
      }
    }
    return false;
  }

  method NamesAt(bs: seq<Blocker>, span: PortRange) returns (names: seq<string>)
    ensures names == NamesTouching(bs, span)
  {
    names := [];
    for j := 0 to |bs|
      invariant names == NamesTouching(bs[..j], span)
    {
      assert bs[..j + 1][..j] == bs[..j];
      var touched := TouchesAny(bs[j].ranges, span);
      if touched {
        names := names + [bs[j].name];
      }
    }
    assert bs[..|bs|] == bs;
  }

  method Page(bs: seq<Blocker>, known: seq<Known>) returns (out: seq<seq<string>>)
    ensures |out| == |known|
    ensures forall i :: 0 <= i < |known| ==> out[i] == NamesTouching(bs, known[i].span)
  {
    out := [];
    for i := 0 to |known|
      invariant |out| == i
      invariant forall k :: 0 <= k < i ==> out[k] == NamesTouching(bs, known[k].span)
    {
      var names := NamesAt(bs, known[i].span);
      out := out + [names];
    }
  }

  /** For one address: each known range with the labels of the rules that would block it. The
      configuration's master switch is not looked at. */
  method Verdicts(cache: NetsCache, reg: Registry, world: World, c: Config, known: seq<Known>, panel: int,
                  family: Family, source: nat)
    returns (out: seq<seq<string>>)
    requires cache.Valid(reg) && SoundReader(reg)
    modifies cache
    ensures cache.Valid(reg) && |out| == |known|
    ensures forall i :: 0 <= i < |known| ==>
              out[i] == BlockedBy(reg, world, c.rules, known, panel, family, source, known[i].span)
    ensures forall i :: 0 <= i < |known| ==>
              Shown(reg, world, c.rules, known, panel, family, source, known[i].span, out[i])
  {
    hide BlockersOf, BlockedBy, Shown, SoundReader;
    var bs := Blockers(cache, reg, world, c.rules, known, panel, family, source);
    out := Page(bs, known);
    forall i | 0 <= i < |known|
      ensures out[i] == BlockedBy(reg, world, c.rules, known, panel, family, source, known[i].span)
    {
      NamesAreBlockers(reg, world, c.rules, known, panel, family, source, bs, known[i].span);
    }
    forall i | 0 <= i < |known|
      ensures Shown(reg, world, c.rules, known, panel, family, source, known[i].span, out[i])
    {
      BlockedByIsShown(reg, world, c.rules, known, panel, family, source, known[i].span);
    }
  }

  /** A new connection from outside to one of the machine's own ports. */
  ghost function External(protocol: Protocol, family: Family, source: nat, port: int): Packet {
    Packet(false, true, true, protocol, family, source, port)
  }

  ghost predicate DroppedSomewhere(reg: Registry, world: World, c: Config, known: seq<Known>, panel: int,
                                   family: Family, source: nat, span: PortRange) {
    exists protocol, port :: protocol != OtherProtocol && InRange(span, port)
      && ShouldDrop(reg, world, c, known, panel, External(protocol, family, source, port))
  }

  lemma {:induction false} SomeBlocker(reg: Registry, world: World, rules: seq<Rule>, known: seq<Known>, panel: int,
                                       family: Family, source: nat, span: PortRange)
    ensures BlockedBy(reg, world, rules, known, panel, family, source, span) != []
       <==> exists r :: r in rules && RuleOn(r) && BlocksAddress(reg, world, r, family, source)
                        && Overlaps(r, known, panel, span)
    decreases rules
  {
    if rules != [] {
      SomeBlocker(reg, world, rules[1..], known, panel, family, source, span);
      assert rules == [rules[0]] + rules[1..];
    }
  }

  /** The page and the packet filter agree: a known range shows a blocker exactly when the rules,
      switched on, drop some new packet from that address to one of its ports. */
  lemma VerdictsAgree(reg: Registry, world: World, c: Config, known: seq<Known>, panel: int,
                      family: Family, source: nat, span: PortRange)
    ensures BlockedBy(reg, world, c.rules, known, panel, family, source, span) != []
       <==> DroppedSomewhere(reg, world, c.(enabled := true), known, panel, family, source, span)
  {
    SomeBlocker(reg, world, c.rules, known, panel, family, source, span);
    var on := c.(enabled := true);
    if r :| r in c.rules && RuleOn(r) && BlocksAddress(reg, world, r, family, source) && Overlaps(r, known, panel, span) {
      var port :| InRange(span, port) && Covers(r, known, panel, port);
      assert RuleDrops(reg, world, known, panel, r, External(Tcp, family, source, port));
      assert ShouldDrop(reg, world, on, known, panel, External(Tcp, family, source, port));
    }
    if DroppedSomewhere(reg, world, on, known, panel, family, source, span) {
      var protocol, port :| protocol != OtherProtocol && InRange(span, port)
        && ShouldDrop(reg, world, on, known, panel, External(protocol, family, source, port));
      var r :| r in c.rules && RuleOn(r) && RuleDrops(reg, world, known, panel, r, External(protocol, family, source, port));
      assert Overlaps(r, known, panel, span);
    }
  }

  /** With the configuration as it is, agreement fails exactly for a blocker shown while filtering is off. */
  lemma VerdictsIgnoreSwitch(reg: Registry, world: World, c: Config, known: seq<Known>, panel: int,
                             family: Family, source: nat, span: PortRange)
    ensures (BlockedBy(reg, world, c.rules, known, panel, family, source, span) != []
             <==> DroppedSomewhere(reg, world, c, known, panel, family, source, span))
       <==> c.enabled || BlockedBy(reg, world, c.rules, known, panel, family, source, span) == []
  {
    if c.enabled {
      VerdictsAgree(reg, world, c, known, panel, family, source, span);
      assert c == c.(enabled := true);
    }
  }

  /** The table drops some new packet from the address to a port of the range. */
  ghost predicate TableBlocks(table: Option<Table>, family: Family, source: nat, span: PortRange) {
    exists protocol, port :: protocol != OtherProtocol && InRange(span, port) && Drops(table, External(protocol, family, source, port))
  }

  /** The compiled table and the page side by side, filtering on: a known range shows a blocker exactly
      when the table drops some new packet from that address to one of its ports. */
  method TableAndPage(cache: NetsCache, reg: Registry, world: World, c: Config, known: seq<Known>, panel: int, seen: bool,
                      family: Family, source: nat)
    returns (table: Option<Table>, page: seq<seq<string>>)
    requires cache.Valid(reg) && SoundReader(reg) && c.enabled
    modifies cache
    ensures cache.Valid(reg) && |page| == |known|
    ensures forall i :: 0 <= i < |known| ==> (page[i] != [] <==> TableBlocks(table, family, source, known[i].span))
  {
    hide Drops, ShouldDrop, BlockedBy, SoundReader;
    table := Ruleset(cache, reg, world, c, known, panel, seen);
    page := Verdicts(cache, reg, world, c, known, panel, family, source);
    forall i | 0 <= i < |known| ensures page[i] != [] <==> TableBlocks(table, family, source, known[i].span) {
      VerdictsAgree(reg, world, c, known, panel, family, source, known[i].span);
      assert c == c.(enabled := true);
    }
  }
}
