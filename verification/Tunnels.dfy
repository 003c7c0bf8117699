/** Tunnels of a client configuration, and "TCP + UDP" entries that stand for two of them. */
module Tunnels {
  import opened Wrappers
  import opened TextLines

  /** An advanced setting kept as it is written. */
  datatype Extra = Extra(key: string, raw: string)

  datatype Settings = Settings(
    localIP: string,
    localPort: string,
    remotePort: string,
    domains: string,
    secretKey: string,
    proxyProtocol: string,
    compression: bool,
    encryption: bool,
    extras: seq<Extra>)

  type NoteMap = map<string, string>

  /** udpComments, udpNotes: those of the udp tunnel of a "TCP + UDP" entry. */
  datatype Tunnel = Tunnel(
    uid: nat,
    name: string,
    kind: string,
    settings: Settings,
    comments: seq<string>,
    notes: NoteMap,
    udpComments: seq<string>,
    udpNotes: Option<NoteMap>)

  const BOTH := "both"

  predicate EndsWith(s: string, t: string) {
    |s| >= |t| && s[|s| - |t|..] == t
  }

  /** Name shared by the two tunnels of a pair, read on the tcp one. */
  function Base(p: Tunnel): Option<string> {
    if p.kind == "tcp" && p.settings.remotePort != "" && |p.name| > 4 && EndsWith(p.name, "-tcp")
       && (forall i :: 0 <= i < |p.name| - 4 ==> !LineBreak(p.name[i]))
    then Some(p.name[..|p.name| - 4]) else None
  }

  /** Is `x` the udp tunnel of the pair of `p`: same everything, comments aside? */
  predicate Mates(p: Tunnel, x: Tunnel) {
    Base(p).Some? && x.kind == "udp" && x.name == Base(p).value + "-udp" && x.settings == p.settings
  }

  /** The two tunnels of a "TCP + UDP" entry, otherwise the entry. */
  function SplitPair(p: Tunnel): seq<Tunnel> {
    if p.kind != BOTH then [p]
    else
      var q := p.(udpComments := [], udpNotes := None);
      [q.(name := p.name + "-tcp", kind := "tcp"),
       q.(name := p.name + "-udp", kind := "udp", comments := p.udpComments,
          notes := if p.udpNotes.Some? then p.udpNotes.value else p.notes)]
  }

  function SplitAll(s: seq<Tunnel>): seq<Tunnel> {
    if s == [] then [] else SplitPair(s[0]) + SplitAll(s[1..])
  }

  /** The entry that stands for a tcp tunnel and its udp mate. */
  function Join(tcp: Tunnel, udp: Tunnel): Tunnel
    requires Base(tcp).Some?
  {
    tcp.(name := Base(tcp).value, kind := BOTH, udpComments := udp.comments, udpNotes := Some(udp.notes))
  }

  // ---- Finding the pairs ----

  type Pairing = map<nat, nat>

  /** First tunnel from `x` on, not paired yet, that is the mate of `p`. */
  function FirstMate(s: seq<Tunnel>, mates: Pairing, p: Tunnel, x: nat): (q: Option<nat>)
    ensures q.Some? ==> x <= q.value < |s| && Mates(p, s[q.value]) && q.value !in mates
    ensures q.Some? ==> forall k :: x <= k < q.value && Mates(p, s[k]) ==> k in mates
    ensures q.None? ==> forall k :: x <= k < |s| && Mates(p, s[k]) ==> k in mates
    decreases |s| - x
  {
    if x >= |s| then None
    else if x !in mates && Mates(p, s[x]) then Some(x)
    else FirstMate(s, mates, p, x + 1)
  }

  /** Pairs found by the first `n` tunnels. */
  function Pairs(s: seq<Tunnel>, n: nat): Pairing
    requires n <= |s|
  {
    if n == 0 then map[] else PairNext(s, Pairs(s, n - 1), n - 1)
  }

  function PairNext(s: seq<Tunnel>, mates: Pairing, i: nat): Pairing
    requires i < |s|
  {
    if Base(s[i]).None? || i in mates then mates
    else
      match FirstMate(s, mates, s[i], 0)
      case None => mates
      case Some(q) => mates[i := q][q := i]
  }

  /** The list with each pair as one entry, at the place of its first tunnel, from `i` on. */
  function GroupFrom(s: seq<Tunnel>, mates: Pairing, i: nat): seq<Tunnel>
    requires PairingOk(s, mates)
    decreases |s| - i
  {
    if i >= |s| then []
    else if i !in mates then [s[i]] + GroupFrom(s, mates, i + 1)
    else if mates[i] < i then GroupFrom(s, mates, i + 1)
    else [JoinAt(s, mates, i)] + GroupFrom(s, mates, i + 1)
  }

  function JoinAt(s: seq<Tunnel>, mates: Pairing, i: nat): Tunnel
    requires PairingOk(s, mates) && i in mates
  {
    if s[i].kind == "tcp" then Join(s[i], s[mates[i]]) else Join(s[mates[i]], s[i])
  }

  /** Pairs go both ways, each of a tcp tunnel and its mate. */
  predicate PairingOk(s: seq<Tunnel>, mates: Pairing) {
    forall i :: i in mates ==>
      i < |s| && mates[i] < |s| && mates[i] in mates && mates[mates[i]] == i && mates[i] != i
      && (s[i].kind == "tcp" ==> Mates(s[i], s[mates[i]]))
      && (s[i].kind != "tcp" ==> Mates(s[mates[i]], s[i]))
  }

  lemma {:induction false} PairsOk(s: seq<Tunnel>, n: nat)
    requires n <= |s|
    ensures PairingOk(s, Pairs(s, n))
  {
    if n > 0 {
      PairsOk(s, n - 1);
      PairNextOk(s, Pairs(s, n - 1), n - 1);
    }
  }

  lemma PairNextOk(s: seq<Tunnel>, mates: Pairing, i: nat)
    requires i < |s| && PairingOk(s, mates)
    ensures PairingOk(s, PairNext(s, mates, i))
  {
    hide FirstMate, Mates, Base;
    if Base(s[i]).Some? && i !in mates && FirstMate(s, mates, s[i], 0).Some? {
      var q := FirstMate(s, mates, s[i], 0).value;
      MatesDiffer(s[i], s[q]);
      Linked(s, mates, i, q);
    }
  }

  lemma MatesDiffer(p: Tunnel, x: Tunnel)
    requires Mates(p, x)
    ensures p.kind == "tcp" && x.kind == "udp" && Base(p).Some?
  {
  }

  lemma Linked(s: seq<Tunnel>, mates: Pairing, i: nat, q: nat)
    requires PairingOk(s, mates) && i < |s| && q < |s| && i !in mates && q !in mates
    requires Mates(s[i], s[q]) && s[i].kind == "tcp" && s[q].kind == "udp"
    ensures PairingOk(s, mates[i := q][q := i])
  {
    hide Mates;
    assert i != q;
  }

  function Grouped(s: seq<Tunnel>): seq<Tunnel> {
    PairsOk(s, |s|);
    GroupFrom(s, Pairs(s, |s|), 0)
  }

  /** Each tcp tunnel with the first udp tunnel that mates it and is still free. */
  method FindPairs(proxies: seq<Tunnel>) returns (mates: Pairing)
    ensures mates == Pairs(proxies, |proxies|)
  {
    hide PairingOk, Mates, Base;
    mates := map[];
    for i := 0 to |proxies|
      invariant mates == Pairs(proxies, i)
    {
      var p := proxies[i];
      if Base(p).Some? && i !in mates {
        var q := 0;
        while q < |proxies| && !(q !in mates && Mates(p, proxies[q]))
          invariant q <= |proxies|
          invariant FirstMate(proxies, mates, p, 0) == FirstMate(proxies, mates, p, q)
        {
          q := q + 1;
        }
        if q < |proxies| {
          mates := mates[i := q][q := i];
        }
      }
    }
  }

  /** Groups the pairs of a list, as "TCP + UDP" entries. */
  method PairProxies(proxies: seq<Tunnel>) returns (out: seq<Tunnel>)
    ensures out == Grouped(proxies)
  {
    hide PairingOk, Mates, Base, Pairs, Join, JoinAt, GroupFrom;
    var mates := FindPairs(proxies);
    PairsOk(proxies, |proxies|);
    out := [];
    var done: set<nat> := {};
    for i := 0 to |proxies|
      invariant out + GroupFrom(proxies, mates, i) == GroupFrom(proxies, mates, 0)
      invariant DoneBefore(mates, done, i)
    {
      DoneNext(proxies, mates, done, i);
      GroupNext(proxies, mates, i, out);
      if i !in done {
        if i in mates {
          done := done + {mates[i]};
          out := out + [JoinAt(proxies, mates, i)];
        } else {
          out := out + [proxies[i]];
        }
      }
    }
    assert GroupFrom(proxies, mates, |proxies|) == [] by { GroupEnd(proxies, mates); }
  }

  lemma GroupEnd(s: seq<Tunnel>, mates: Pairing)
    requires PairingOk(s, mates)
    ensures GroupFrom(s, mates, |s|) == []
  {
  }

  lemma GroupNext(s: seq<Tunnel>, mates: Pairing, i: nat, out: seq<Tunnel>)
    requires PairingOk(s, mates) && i < |s|
    ensures out + GroupFrom(s, mates, i) ==
            (if i !in mates then out + [s[i]] else if mates[i] < i then out else out + [JoinAt(s, mates, i)])
            + GroupFrom(s, mates, i + 1)
  {
    hide PairingOk, JoinAt;
  }

  // done: the tunnels already written with their mate.
  ghost predicate DoneBefore(mates: Pairing, done: set<nat>, i: nat) {
    forall k :: k in done <==> k in mates && mates[k] < i && mates[k] < k
  }

  // A tunnel is skipped exactly when its mate came before it.
  lemma DoneNext(s: seq<Tunnel>, mates: Pairing, done: set<nat>, i: nat)
    requires PairingOk(s, mates) && i < |s| && DoneBefore(mates, done, i)
    ensures i in done <==> i in mates && mates[i] < i
    ensures DoneBefore(mates, if i !in done && i in mates then done + {mates[i]} else done, i + 1)
  {
    hide Mates;
    var done' := if i !in done && i in mates then done + {mates[i]} else done;
    forall k ensures k in done' <==> k in mates && mates[k] < i + 1 && mates[k] < k {
      assert k in mates && mates[k] == i ==> i in mates && mates[i] == k;
    }
  }
}
