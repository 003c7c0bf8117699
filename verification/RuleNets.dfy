/** The networks of a firewall rule, and the bounded cache in front of their
    computation. A catalog of community lists and the prefixes of each autonomous
    system are known by the time stamp of their download. */
module RuleNets {
  import opened Wrappers
  import Cidr

  datatype Family = V4 | V6

  datatype Net = Net(family: Family, prefix: Cidr.Prefix)

  function WidthOf(f: Family): nat {
    if f.V4? then 32 else 128
  }

  /** An entry of a rule or of a list: an AS number (0: none) or the text of a network. */
  datatype Source = Source(asn: int, cidr: string)

  datatype Mode = Allow | Block

  datatype Ports = Every | Listed(ranges: Option<seq<PortRange>>)

  datatype PortSpan = PortSpan(a: int, b: int)
  type PortRange = r: PortSpan | 1 <= r.a <= r.b <= 65535 witness PortSpan(1, 1)

  /** `ports`: "*" or the ranges read from the text (None: unreadable). */
  datatype Rule = Rule(id: string, name: string, mode: Mode, ports: Ports, frps: string,
                       enabled: Option<bool>, sources: seq<Source>, list: string)

  datatype AsnEntry = AsnEntry(v4: seq<string>, v6: seq<string>)

  /** What each stamp stands for, and the reader of network texts. */
  datatype Registry = Registry(parse: string -> Option<Net>,
                               catalog: int -> map<string, seq<Source>>,
                               prefixes: (int, int) -> AsnEntry)

  /** The downloads in use: the catalog's stamp, and that of each known AS. */
  datatype World = World(fetched: int, asnFetched: map<int, int>)

  function RuleSources(reg: Registry, world: World, rule: Rule): seq<Source> {
    var lists := reg.catalog(world.fetched);
    rule.sources + if rule.list != "" && rule.list in lists then lists[rule.list] else []
  }

  function ParseAll(parse: string -> Option<Net>, texts: seq<string>): seq<Net> {
    if texts == [] then [] else
      (match parse(texts[0]) case Some(n) => [n] case None => []) + ParseAll(parse, texts[1..])
  }

  function SourceNets(reg: Registry, world: World, s: Source): seq<Net> {
    if s.asn != 0 then
      if s.asn in world.asnFetched then
        var e := reg.prefixes(s.asn, world.asnFetched[s.asn]);
        ParseAll(reg.parse, e.v4 + e.v6)
      else []
    else ParseAll(reg.parse, [s.cidr])
  }

  function NetsOf(reg: Registry, world: World, sources: seq<Source>): seq<Net> {
    if sources == [] then [] else SourceNets(reg, world, sources[0]) + NetsOf(reg, world, sources[1..])
  }

  /** Recomputation: what the cache must always agree with. */
  function Nets(reg: Registry, world: World, rule: Rule): seq<Net> {
    NetsOf(reg, world, RuleSources(reg, world, rule))
  }

  /** The networks of a rule by membership alone: some source of the rule, or of its list in the current
      catalog, has a text read as the network: its own when it has no AS, a prefix of the AS when that
      is known. */
  ghost predicate RuleHas(reg: Registry, world: World, rule: Rule, n: Net) {
    exists s, text ::
      && (s in rule.sources || (rule.list != "" && rule.list in reg.catalog(world.fetched)
                                && s in reg.catalog(world.fetched)[rule.list]))
      && (if s.asn == 0 then text == s.cidr
          else s.asn in world.asnFetched
               && (text in reg.prefixes(s.asn, world.asnFetched[s.asn]).v4 || text in reg.prefixes(s.asn, world.asnFetched[s.asn]).v6))
      && reg.parse(text) == Some(n)
  }

  ghost predicate TextOf(reg: Registry, world: World, s: Source, text: string) {
    if s.asn == 0 then text == s.cidr
    else s.asn in world.asnFetched
         && (text in reg.prefixes(s.asn, world.asnFetched[s.asn]).v4 || text in reg.prefixes(s.asn, world.asnFetched[s.asn]).v6)
  }

  lemma {:induction false} ParsedTexts(parse: string -> Option<Net>, texts: seq<string>, n: Net)
    ensures n in ParseAll(parse, texts) <==> exists t :: t in texts && parse(t) == Some(n)
  {
    if texts != [] {
      ParsedTexts(parse, texts[1..], n);
      assert forall t :: t in texts <==> t == texts[0] || t in texts[1..];
    }
  }

  lemma SourceTexts(reg: Registry, world: World, s: Source, n: Net)
    ensures n in SourceNets(reg, world, s) <==> exists t :: TextOf(reg, world, s, t) && reg.parse(t) == Some(n)
  {
    if s.asn == 0 {
      ParsedTexts(reg.parse, [s.cidr], n);
    } else if s.asn in world.asnFetched {
      var e := reg.prefixes(s.asn, world.asnFetched[s.asn]);
      ParsedTexts(reg.parse, e.v4 + e.v6, n);
    }
  }

  lemma {:induction false} SourcesHave(reg: Registry, world: World, sources: seq<Source>, n: Net)
    ensures n in NetsOf(reg, world, sources)
       <==> exists s, t :: s in sources && TextOf(reg, world, s, t) && reg.parse(t) == Some(n)
  {
    if sources != [] {
      hide SourceNets, TextOf;
      SourceTexts(reg, world, sources[0], n);
      SourcesHave(reg, world, sources[1..], n);
      assert forall s :: s in sources <==> s == sources[0] || s in sources[1..];
    }
  }

  lemma SourcesOfRule(reg: Registry, world: World, rule: Rule, s: Source)
    ensures s in RuleSources(reg, world, rule)
       <==> s in rule.sources || (rule.list != "" && rule.list in reg.catalog(world.fetched)
                                  && s in reg.catalog(world.fetched)[rule.list])
  {
  }

  /** Recomputation gives the networks the rule has, and no other. */
  lemma NetsAreThoseOfTheRule(reg: Registry, world: World, rule: Rule, n: Net)
    ensures n in Nets(reg, world, rule) <==> RuleHas(reg, world, rule, n)
  {
    hide NetsOf, RuleSources;
    var sources := RuleSources(reg, world, rule);
    SourcesHave(reg, world, sources, n);
    forall s
      ensures s in sources <==> s in rule.sources || (rule.list != "" && rule.list in reg.catalog(world.fetched)
                                                      && s in reg.catalog(world.fetched)[rule.list])
    {
      SourcesOfRule(reg, world, rule, s);
    }
    if s, t :| s in sources && TextOf(reg, world, s, t) && reg.parse(t) == Some(n) {
      assert RuleHas(reg, world, rule, n);
    }
    if RuleHas(reg, world, rule, n) {
      var s, t :| (s in rule.sources || (rule.list != "" && rule.list in reg.catalog(world.fetched)
                                         && s in reg.catalog(world.fetched)[rule.list]))
                  && TextOf(reg, world, s, t) && reg.parse(t) == Some(n);
      assert s in sources;
    }
  }

  lemma NetsOfTheRule(reg: Registry, world: World, rule: Rule)
    ensures forall n :: n in Nets(reg, world, rule) <==> RuleHas(reg, world, rule, n)
  {
    hide Nets, RuleHas;
    forall n ensures n in Nets(reg, world, rule) <==> RuleHas(reg, world, rule, n) {
      NetsAreThoseOfTheRule(reg, world, rule, n);
    }
  }

  // ---- The cache key ----

  datatype Key = Key(parts: seq<Source>, list: Option<(string, int)>, stamps: seq<Option<int>>)

  ghost predicate IsLeast(m: int, s: set<int>) {
    m in s && forall x :: x in s ==> m <= x
  }

  lemma {:induction false} LeastExists(s: set<int>, a: int)
    requires a in s
    ensures exists m :: IsLeast(m, s)
    decreases |s|
  {
    if b :| b in s && b < a {
      var t := s - {a};
      LeastExists(t, b);
      var m :| IsLeast(m, t);
      assert b in t && m <= b;
      assert forall x :: x in s ==> x == a || x in t;
      assert IsLeast(m, s);
    } else {
      assert IsLeast(a, s);
    }
  }

  function Sorted(s: set<int>): (r: seq<int>)
    ensures forall x :: x in r <==> x in s
  {
    if s == {} then [] else
      assert exists m :: m in s && forall x :: x in s ==> m <= x by {
        assert (forall a :: a !in s) ==> s == {};
        var a :| a in s;
        LeastExists(s, a);
        var m :| IsLeast(m, s);
        assert m in s && forall x :: x in s ==> m <= x;
      }
      var m :| m in s && forall x :: x in s ==> m <= x;
      [m] + Sorted(s - {m})
  }

  function Asns(sources: seq<Source>): set<int> {
    set s | s in sources && s.asn != 0 :: s.asn
  }

  function Stamp(world: World, asn: int): Option<int> {
    if asn in world.asnFetched then Some(world.asnFetched[asn]) else None
  }

  function Stamps(world: World, asns: seq<int>): (r: seq<Option<int>>)
    ensures |r| == |asns|
    ensures forall i :: 0 <= i < |asns| ==> r[i] == Stamp(world, asns[i])
  {
    if asns == [] then [] else [Stamp(world, asns[0])] + Stamps(world, asns[1..])
  }

  function KeyOf(reg: Registry, world: World, rule: Rule): Key {
    Key(rule.sources,
        if rule.list != "" then Some((rule.list, world.fetched)) else None,
        Stamps(world, Sorted(Asns(RuleSources(reg, world, rule)))))
  }

  lemma {:induction false} NetsDependOnStamps(reg: Registry, world: World, other: World, sources: seq<Source>)
    requires forall a <- Asns(sources) :: Stamp(world, a) == Stamp(other, a)
    ensures NetsOf(reg, world, sources) == NetsOf(reg, other, sources)
  {
    if sources != [] {
      var s := sources[0];
      assert s in sources;
      assert s.asn != 0 ==> s.asn in Asns(sources) && Stamp(world, s.asn) == Stamp(other, s.asn);
      assert Asns(sources[1..]) <= Asns(sources);
      NetsDependOnStamps(reg, world, other, sources[1..]);
    }
  }

  /** The key leaves nothing out: equal keys, equal networks. */
  lemma KeyDetermines(reg: Registry, world: World, rule: Rule, other: World, rule': Rule)
    requires KeyOf(reg, world, rule) == KeyOf(reg, other, rule')
    ensures Nets(reg, world, rule) == Nets(reg, other, rule')
  {
    var sources := RuleSources(reg, world, rule);
    assert sources == RuleSources(reg, other, rule');
    var asns := Sorted(Asns(sources));
    assert Stamps(world, asns) == Stamps(other, asns);
    forall a | a in Asns(sources) ensures Stamp(world, a) == Stamp(other, a) {
      var i :| 0 <= i < |asns| && asns[i] == a;
      assert Stamps(world, asns)[i] == Stamps(other, asns)[i];
    }
    NetsDependOnStamps(reg, world, other, sources);
  }

  const CAPACITY := 64

  class NetsCache {
    var cache: map<Key, seq<Net>>
    var order: seq<Key>

    ghost predicate Valid(reg: Registry)
      reads this
    {
      && |order| <= CAPACITY
      && (forall k :: k in cache ==> k in order)
      && forall world, rule :: KeyOf(reg, world, rule) in cache ==>
                                 cache[KeyOf(reg, world, rule)] == Nets(reg, world, rule)
    }

    constructor (ghost reg: Registry)
      ensures Valid(reg) && fresh(this)
      ensures cache == map[] && order == []
    {
      cache, order := map[], [];
    }

    /** One critical section: a hit is what any rule of that key would give now. */
    method Lookup(ghost reg: Registry, key: Key) returns (found: Option<seq<Net>>)
      requires Valid(reg)
      ensures found == if key in cache then Some(cache[key]) else None
      ensures found.Some? ==> forall world, rule :: KeyOf(reg, world, rule) == key ==> found.value == Nets(reg, world, rule)
    {
      found := if key in cache then Some(cache[key]) else None;
    }

    /** The other one: a result is added, the oldest key leaves when there are too many. Another
        caller may have stored the key meanwhile: it is then twice in the queue. */
    method Store(ghost reg: Registry, ghost world: World, ghost rule: Rule, key: Key, nets: seq<Net>)
      requires Valid(reg) && key == KeyOf(reg, world, rule) && nets == Nets(reg, world, rule)
      modifies this
      ensures Valid(reg)
      ensures |order| == if |old(order)| < CAPACITY then |old(order)| + 1 else CAPACITY
      ensures order == (old(order) + [key])[|old(order)| + 1 - |order|..]
      ensures cache == if |old(order)| < CAPACITY then old(cache)[key := nets]
                       else old(cache)[key := nets] - {(old(order) + [key])[0]}
    {
      forall w, r | KeyOf(reg, w, r) == key ensures nets == Nets(reg, w, r) {
        KeyDetermines(reg, w, r, world, rule);
      }
      cache := cache[key := nets];
      order := order + [key];
      assert key in order;
      assert forall k :: k in old(order) ==> k in order;
      assert forall k :: k in order ==> k == order[0] || k in order[1..];
      if |order| > CAPACITY {
        cache := cache - {order[0]};
        order := order[1..];
      }
    }

    /** The networks of a rule: from the cache or not, those recomputation would give. */
    method RuleNets(reg: Registry, world: World, rule: Rule) returns (nets: seq<Net>)
      requires Valid(reg)
      modifies this
      ensures Valid(reg)
      ensures nets == Nets(reg, world, rule)
      ensures forall n :: n in nets <==> RuleHas(reg, world, rule, n)
    {
      NetsOfTheRule(reg, world, rule);
      var key := KeyOf(reg, world, rule);
      var cached := Lookup(reg, key);
      if cached.Some? {
        return cached.value;
      }
      nets := Recompute(reg, world, rule);
      Store(reg, world, rule, key, nets);
    }
  }

  lemma PeelSource(reg: Registry, world: World, sources: seq<Source>, i: nat, nets: seq<Net>)
    requires i < |sources|
    ensures nets + NetsOf(reg, world, sources[i..])
         == (nets + SourceNets(reg, world, sources[i])) + NetsOf(reg, world, sources[i + 1..])
  {
    assert sources[i..][1..] == sources[i + 1..];
  }

  method Recompute(reg: Registry, world: World, rule: Rule) returns (nets: seq<Net>)
    ensures nets == Nets(reg, world, rule)
    ensures forall n :: n in nets <==> RuleHas(reg, world, rule, n)
  {
    hide RuleHas, SourceNets;
    NetsOfTheRule(reg, world, rule);
    nets := [];
    var sources := RuleSources(reg, world, rule);
    for i := 0 to |sources|
      invariant nets + NetsOf(reg, world, sources[i..]) == Nets(reg, world, rule)
    {
      PeelSource(reg, world, sources, i, nets);
      nets := AppendSource(reg, world, nets, sources[i]);
    }
  }

  method AppendSource(reg: Registry, world: World, before: seq<Net>, s: Source) returns (nets: seq<Net>)
    ensures nets == before + SourceNets(reg, world, s)
  {
    nets := before;
    if s.asn != 0 {
      if s.asn in world.asnFetched {
        var e := reg.prefixes(s.asn, world.asnFetched[s.asn]);
        nets := AppendParsed(reg, nets, e.v4 + e.v6);
      }
    } else {
      nets := AppendParsed(reg, nets, [s.cidr]);
    }
  }

  method AppendParsed(reg: Registry, before: seq<Net>, texts: seq<string>) returns (nets: seq<Net>)
    ensures nets == before + ParseAll(reg.parse, texts)
  {
    nets := before;
    for j := 0 to |texts|
      invariant nets + ParseAll(reg.parse, texts[j..]) == before + ParseAll(reg.parse, texts)
    {
      assert texts[j..][1..] == texts[j + 1..];
      var p := reg.parse(texts[j]);
      ghost var rest := ParseAll(reg.parse, texts[j + 1..]);
      if p.Some? {
        assert nets + ([p.value] + rest) == (nets + [p.value]) + rest;
        nets := nets + [p.value];
      }
    }
  }

  /** At most 64 keys are held: each one is in the queue. */
  lemma CacheIsBounded(c: NetsCache, reg: Registry)
    requires c.Valid(reg)
    ensures |c.cache| <= CAPACITY
  {
    KeysFit(c.cache.Keys, c.order);
    assert |c.cache| == |c.cache.Keys|;
  }

  lemma {:induction false} KeysFit(keys: set<Key>, order: seq<Key>)
    requires forall k :: k in keys ==> k in order
    ensures |keys| <= |order|
    decreases order
  {
    if order != [] {
      KeysFit(keys - {order[0]}, order[1..]);
    } else {
      assert keys == {};
    }
  }
}
