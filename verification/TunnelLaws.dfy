/** Grouping pairs of tunnels loses nothing: splitting gives the tunnels back, and grouping them
    again gives the same list. */
module TunnelLaws {
  import opened Wrappers
  import opened TextLines
  import opened Tunnels

  /** A list read from a file: no "TCP + UDP" entry yet. */
  predicate Single(p: Tunnel) {
    p.kind != BOTH && p.udpComments == [] && p.udpNotes == None
  }

  predicate NoBoth(s: seq<Tunnel>) {
    forall i :: 0 <= i < |s| ==> Single(s[i])
  }

  /** A tunnel without its identifier in the page. */
  function Anon(p: Tunnel): Tunnel {
    p.(uid := 0)
  }

  function AnonAll(s: seq<Tunnel>): multiset<Tunnel> {
    if s == [] then multiset{} else multiset{Anon(s[0])} + AnonAll(s[1..])
  }

  lemma {:induction false} AnonApart(a: seq<Tunnel>, b: seq<Tunnel>)
    ensures AnonAll(a + b) == AnonAll(a) + AnonAll(b)
  {
    if a == [] {
      assert a + b == b;
    } else {
      assert (a + b)[0] == a[0] && (a + b)[1..] == a[1..] + b;
      AnonApart(a[1..], b);
    }
  }

  // ---- Splitting gives the tunnels back ----

  /** The two halves of an entry are the tunnels it stands for. */
  lemma JoinSplits(tcp: Tunnel, udp: Tunnel)
    requires Mates(tcp, udp) && Single(tcp) && Single(udp)
    ensures AnonAll(SplitPair(Join(tcp, udp))) == multiset{Anon(tcp), Anon(udp)}
  {
    var j := Join(tcp, udp);
    assert tcp.name == tcp.name[..|tcp.name| - 4] + "-tcp";
    var halves := SplitPair(j);
    assert Anon(halves[0]) == Anon(tcp) && Anon(halves[1]) == Anon(udp);
    assert halves == [halves[0]] + [halves[1]];
    AnonApart([halves[0]], [halves[1]]);
    AnonOne(halves[0]);
    AnonOne(halves[1]);
  }

  lemma AnonOne(p: Tunnel)
    ensures AnonAll([p]) == multiset{Anon(p)}
  {
    assert [p][1..] == [];
  }

  /** Tunnels from `k` on, without those whose mate stands before `i`. */
  function Rest(s: seq<Tunnel>, mates: Pairing, i: nat, k: nat): multiset<Tunnel>
    decreases |s| - k
  {
    if k >= |s| then multiset{}
    else (if k in mates && mates[k] < i then multiset{} else multiset{Anon(s[k])}) + Rest(s, mates, i, k + 1)
  }

  // Passing `i`, its mate leaves the rest.
  lemma {:induction false} RestStep(s: seq<Tunnel>, mates: Pairing, i: nat, k: nat)
    requires PairingOk(s, mates) && i < k
    ensures Rest(s, mates, i, k)
         == Rest(s, mates, i + 1, k) + (if i in mates && mates[i] >= k then multiset{Anon(s[mates[i]])} else multiset{})
    decreases |s| - k
  {
    hide PairingOk, Anon, Rest;
    BothWays(s, mates, i, k);
    RestIs(s, mates, i, k);
    RestIs(s, mates, i + 1, k);
    if k < |s| {
      RestStep(s, mates, i, k + 1);
      if k in mates && mates[k] == i {
        assert Rest(s, mates, i, k) == multiset{Anon(s[k])} + Rest(s, mates, i + 1, k + 1);
      }
    }
  }

  lemma RestIs(s: seq<Tunnel>, mates: Pairing, i: nat, k: nat)
    ensures k >= |s| ==> Rest(s, mates, i, k) == multiset{}
    ensures k < |s| && k in mates && mates[k] < i ==> Rest(s, mates, i, k) == Rest(s, mates, i, k + 1)
    ensures k < |s| && !(k in mates && mates[k] < i) ==> Rest(s, mates, i, k) == multiset{Anon(s[k])} + Rest(s, mates, i, k + 1)
  {
  }

  lemma BothWays(s: seq<Tunnel>, mates: Pairing, i: nat, k: nat)
    requires PairingOk(s, mates)
    ensures k in mates && mates[k] == i <==> i in mates && mates[i] == k
    ensures i in mates ==> mates[i] < |s|
  {
    hide Mates;
  }

  lemma {:induction false} RestIsAll(s: seq<Tunnel>, mates: Pairing, k: nat)
    requires k <= |s|
    ensures Rest(s, mates, 0, k) == AnonAll(s[k..])
    decreases |s| - k
  {
    if k < |s| {
      RestIsAll(s, mates, k + 1);
      assert s[k..][0] == s[k] && s[k..][1..] == s[k + 1..];
    }
  }

  lemma JoinAtSplits(s: seq<Tunnel>, mates: Pairing, i: nat)
    requires PairingOk(s, mates) && NoBoth(s) && i in mates
    ensures AnonAll(SplitPair(JoinAt(s, mates, i))) == multiset{Anon(s[i]), Anon(s[mates[i]])}
  {
    hide Mates, Join, Anon, SplitPair;
    if s[i].kind == "tcp" {
      JoinSplits(s[i], s[mates[i]]);
    } else {
      JoinSplits(s[mates[i]], s[i]);
    }
  }

  lemma {:induction false} GroupHolds(s: seq<Tunnel>, mates: Pairing, i: nat)
    requires PairingOk(s, mates) && NoBoth(s)
    ensures AnonAll(SplitAll(GroupFrom(s, mates, i))) == Rest(s, mates, i, i)
    decreases |s| - i
  {
    hide PairingOk, NoBoth, AnonAll, SplitPair, SplitAll, Anon, JoinAt, GroupFrom, Rest;
    NoneLeft(s, mates, i);
    if i < |s| {
      GroupHolds(s, mates, i + 1);
      RestStep(s, mates, i, i + 1);
      GroupIs(s, mates, i);
      var rest := GroupFrom(s, mates, i + 1);
      if i !in mates {
        SplitFirst(s[i], rest);
        SingleSplits(s, i);
      } else {
        MateIsOther(s, mates, i);
        if mates[i] > i {
          SplitFirst(JoinAt(s, mates, i), rest);
          JoinAtSplits(s, mates, i);
        } else {
          assert [] + rest == rest;
        }
      }
    }
  }

  lemma NoneLeft(s: seq<Tunnel>, mates: Pairing, i: nat)
    requires PairingOk(s, mates)
    ensures i >= |s| ==> AnonAll(SplitAll(GroupFrom(s, mates, i))) == multiset{} == Rest(s, mates, i, i)
  {
    hide PairingOk;
  }

  lemma GroupIs(s: seq<Tunnel>, mates: Pairing, i: nat)
    requires PairingOk(s, mates) && i < |s|
    ensures GroupFrom(s, mates, i) ==
            (if i !in mates then [s[i]] else if mates[i] < i then [] else [JoinAt(s, mates, i)]) + GroupFrom(s, mates, i + 1)
    ensures Rest(s, mates, i, i)
         == (if i in mates && mates[i] < i then multiset{} else multiset{Anon(s[i])}) + Rest(s, mates, i, i + 1)
  {
    hide PairingOk, JoinAt, Anon;
  }

  lemma MateIsOther(s: seq<Tunnel>, mates: Pairing, i: nat)
    requires PairingOk(s, mates) && i in mates
    ensures mates[i] != i && i < |s| && mates[i] < |s|
  {
    hide Mates;
  }

  lemma SingleSplits(s: seq<Tunnel>, i: nat)
    requires NoBoth(s) && i < |s|
    ensures AnonAll(SplitPair(s[i])) == multiset{Anon(s[i])}
  {
    AnonOne(s[i]);
  }

  lemma SplitFirst(p: Tunnel, rest: seq<Tunnel>)
    ensures AnonAll(SplitAll([p] + rest)) == AnonAll(SplitPair(p)) + AnonAll(SplitAll(rest))
  {
    assert ([p] + rest)[0] == p && ([p] + rest)[1..] == rest;
    AnonApart(SplitPair(p), SplitAll(rest));
  }

  /** Splitting a grouped list gives back the tunnels, each with its own comments and notes. */
  lemma SplitRestores(s: seq<Tunnel>)
    requires NoBoth(s)
    ensures AnonAll(SplitAll(Grouped(s))) == AnonAll(s)
  {
    hide PairingOk, GroupFrom, Pairs, Rest, AnonAll;
    var mates := Pairs(s, |s|);
    PairsOk(s, |s|);
    GroupHolds(s, mates, 0);
    RestIsAll(s, mates, 0);
    assert s[0..] == s;
  }

  // ---- Grouping again gives the same list ----

  /** A "TCP + UDP" entry made of two tunnels. */
  predicate Whole(b: Tunnel) {
    && b.kind == BOTH && b.settings.remotePort != "" && b.name != "" && b.udpNotes.Some?
    && forall i :: 0 <= i < |b.name| ==> !LineBreak(b.name[i])
  }

  predicate Half(b: Tunnel, p: Tunnel) {
    p.settings == b.settings && ((p.kind == "tcp" && p.name == b.name + "-tcp") || (p.kind == "udp" && p.name == b.name + "-udp"))
  }

  /** A list where nothing is left to pair, and where a tunnel left alone never stands in front of
      an entry made of tunnels like it. */
  ghost predicate Ordered(g: seq<Tunnel>) {
    && (forall i :: 0 <= i < |g| ==> g[i].kind != BOTH || Whole(g[i]))
    && (forall i, j :: 0 <= i < |g| && 0 <= j < |g| ==> !Mates(g[i], g[j]))
    && forall i, j :: 0 <= i < j < |g| && g[j].kind == BOTH && g[i].kind != BOTH ==> !Half(g[j], g[i])
  }

  // The halves of an entry are mates, and joined they are the entry.
  lemma HalvesMate(b: Tunnel)
    requires Whole(b)
    ensures var h := SplitPair(b);
            |h| == 2 && Mates(h[0], h[1]) && Join(h[0], h[1]) == b && h[0].kind == "tcp" && h[1].kind == "udp"
    ensures var h := SplitPair(b); Half(b, h[0]) && Half(b, h[1])
  {
    var t := SplitPair(b)[0];
    assert t.name == b.name + "-tcp" && t.name[..|t.name| - 4] == b.name && EndsWith(t.name, "-tcp");
  }

  // A tcp half mates the same tunnels as any other tunnel of its entry's name and settings.
  lemma HalfMates(b: Tunnel, t: Tunnel, u: Tunnel)
    requires Whole(b)
    ensures Half(b, t) && t.kind == "tcp" ==> (Mates(t, u) <==> Half(b, u) && u.kind == "udp")
    ensures Half(b, u) && u.kind == "udp" && Mates(t, u) ==> Half(b, t)
  {
    if Half(b, t) && t.kind == "tcp" {
      assert t.name[..|t.name| - 4] == b.name && EndsWith(t.name, "-tcp");
    }
    if Half(b, u) && Mates(t, u) {
      SameBase(Base(t).value, b.name);
    }
  }

  lemma SameBase(a: string, b: string)
    ensures a + "-udp" == b + "-udp" ==> a == b
  {
    if a + "-udp" == b + "-udp" {
      assert |a| == |b| && a == (a + "-udp")[..|a|] && b == (b + "-udp")[..|b|];
    }
  }

  /** Position of entry `k` once the list is split. */
  function Start(g: seq<Tunnel>, k: nat): nat
    requires k <= |g|
  {
    if k == 0 then 0 else Start(g, k - 1) + |SplitPair(g[k - 1])|
  }

  lemma {:induction false} SplitApart(a: seq<Tunnel>, b: seq<Tunnel>)
    ensures SplitAll(a + b) == SplitAll(a) + SplitAll(b)
  {
    hide SplitPair;
    if a == [] {
      assert a + b == b;
    } else {
      assert (a + b)[0] == a[0] && (a + b)[1..] == a[1..] + b;
      SplitApart(a[1..], b);
    }
  }

  lemma {:induction false} StartIsLength(g: seq<Tunnel>, k: nat)
    requires k <= |g|
    ensures |SplitAll(g[..k])| == Start(g, k)
  {
    hide SplitPair;
    if k > 0 {
      StartIsLength(g, k - 1);
      assert g[..k] == g[..k - 1] + [g[k - 1]];
      SplitApart(g[..k - 1], [g[k - 1]]);
      SplitOne(g[k - 1]);
    }
  }

  lemma SplitOne(p: Tunnel)
    ensures SplitAll([p]) == SplitPair(p)
  {
    assert [p][1..] == [];
  }

  /** Entry `k` stands at its place in the split list. */
  lemma SplitAt(g: seq<Tunnel>, k: nat)
    requires k < |g|
    ensures var s, at := SplitAll(g), Start(g, k);
            && at + |SplitPair(g[k])| == Start(g, k + 1) <= |s|
            && forall h :: 0 <= h < |SplitPair(g[k])| ==> s[at + h] == SplitPair(g[k])[h]
  {
    hide SplitPair, SplitAll;
    ThreeSplit(g[..k], g[k], g[k + 1..]);
    assert g == g[..k] + [g[k]] + g[k + 1..];
    StartIsLength(g, k);
    Middle(SplitAll(g[..k]), SplitPair(g[k]), SplitAll(g[k + 1..]));
  }

  lemma ThreeSplit(a: seq<Tunnel>, p: Tunnel, c: seq<Tunnel>)
    ensures SplitAll(a + [p] + c) == SplitAll(a) + SplitPair(p) + SplitAll(c)
  {
    hide SplitPair, SplitAll;
    SplitApart(a + [p], c);
    SplitApart(a, [p]);
    SplitOne(p);
  }

  lemma Middle(a: seq<Tunnel>, b: seq<Tunnel>, c: seq<Tunnel>)
    ensures forall h :: 0 <= h < |b| ==> (a + b + c)[|a| + h] == b[h]
  {
  }

  /** The entry that a position of the split list comes from. */
  function Owner(g: seq<Tunnel>, x: nat, k: nat): nat
    requires k <= |g|
  {
    if k == 0 || Start(g, k - 1) <= x then if k == 0 then 0 else k - 1 else Owner(g, x, k - 1)
  }

  lemma {:induction false} OwnerHolds(g: seq<Tunnel>, x: nat, k: nat)
    requires k <= |g| && x < Start(g, k)
    ensures var o := Owner(g, x, k); o < k && Start(g, o) <= x < Start(g, o + 1)
  {
    hide SplitPair;
    if x < Start(g, k - 1) {
      OwnerHolds(g, x, k - 1);
    }
  }

  lemma {:induction false} StartGrows(g: seq<Tunnel>, a: nat, b: nat)
    requires a <= b <= |g|
    ensures Start(g, a) <= Start(g, b) && (a < b ==> Start(g, a) < Start(g, b))
  {
    if a < b {
      StartGrows(g, a, b - 1);
    }
  }

  /** The pairs of the split list: the halves of each entry. */
  function HalfPairs(g: seq<Tunnel>, k: nat): Pairing
    requires k <= |g|
  {
    if k == 0 then map[]
    else
      var at := Start(g, k - 1);
      if g[k - 1].kind == BOTH then HalfPairs(g, k - 1)[at := at + 1][at + 1 := at] else HalfPairs(g, k - 1)
  }

  // A position is paired exactly when its entry, before `k`, is made of two tunnels.
  lemma {:induction false} HalfPaired(g: seq<Tunnel>, k: nat, o: nat, h: nat)
    requires k <= |g| && o < |g| && h < |SplitPair(g[o])|
    ensures var x := Start(g, o) + h;
            && (x in HalfPairs(g, k) <==> o < k && g[o].kind == BOTH)
            && (x in HalfPairs(g, k) ==> HalfPairs(g, k)[x] == if h == 0 then x + 1 else x - 1)
  {
    hide SplitPair;
    if k > 0 {
      HalfPaired(g, k - 1, o, h);
      SplitLen(g[k - 1]);
      SplitLen(g[o]);
      if o < k - 1 {
        StartGrows(g, o + 1, k - 1);
      } else if k - 1 < o {
        StartGrows(g, k, o);
      }
    }
  }

  lemma SplitLen(p: Tunnel)
    ensures |SplitPair(p)| == if p.kind == BOTH then 2 else 1
  {
  }

  // No tunnel free before entry `k`, or alone, mates this one.
  lemma AlreadyPaired(g: seq<Tunnel>, k: nat, x: nat)
    requires Ordered(g) && k < |g| && x < |SplitAll(g)|
    requires Mates(SplitPair(g[k])[0], SplitAll(g)[x])
    requires g[k].kind == BOTH ==> x < Start(g, k)
    ensures x in HalfPairs(g, k)
  {
    hide SplitPair, Mates, Half, Whole, HalfPairs, Start, SplitAll;
    var s := SplitAll(g);
    StartIsLength(g, |g|);
    assert g[..|g|] == g;
    OwnerHolds(g, x, |g|);
    var o := Owner(g, x, |g|);
    var h := x - Start(g, o);
    SplitAt(g, o);
    HalfPaired(g, k, o, h);
    if g[k].kind == BOTH && k <= o {
      StartGrows(g, k, o);
    }
    OwnerIsPair(g, k, o, h);
  }

  lemma OwnerIsPair(g: seq<Tunnel>, k: nat, o: nat, h: nat)
    requires Ordered(g) && k < |g| && o < |g| && h < |SplitPair(g[o])|
    requires Mates(SplitPair(g[k])[0], SplitPair(g[o])[h])
    requires g[k].kind == BOTH ==> o < k
    ensures o < k && g[o].kind == BOTH
  {
    hide Mates, Half, Whole;
    var t, u := SplitPair(g[k])[0], SplitPair(g[o])[h];
    MatesDiffer(t, u);
    if g[k].kind == BOTH {
      HalvesMate(g[k]);
      HalfMates(g[k], t, u);
    }
    if g[o].kind == BOTH {
      HalvesMate(g[o]);
      HalfMates(g[o], t, u);
    }
  }

  lemma {:induction false} SplitPairs(g: seq<Tunnel>, k: nat)
    requires Ordered(g) && k <= |g|
    ensures Start(g, k) <= |SplitAll(g)| && Pairs(SplitAll(g), Start(g, k)) == HalfPairs(g, k)
  {
    hide SplitPair, Mates, Half, Whole, SplitAll, PairNext, Ordered;
    if k > 0 {
      SplitPairs(g, k - 1);
      SplitAt(g, k - 1);
      SplitLen(g[k - 1]);
      var at := Start(g, k - 1);
      PairStep(g, k - 1);
      assert Pairs(SplitAll(g), at + 1) == PairNext(SplitAll(g), Pairs(SplitAll(g), at), at);
    }
  }

  lemma PairStep(g: seq<Tunnel>, k: nat)
    requires Ordered(g) && k < |g|
    requires Start(g, k + 1) <= |SplitAll(g)|
    ensures var s, at := SplitAll(g), Start(g, k);
            at < |s| && var m := PairNext(s, HalfPairs(g, k), at);
            if g[k].kind == BOTH then at + 1 < |s| && PairNext(s, m, at + 1) == HalfPairs(g, k + 1) else m == HalfPairs(g, k + 1)
  {
    hide SplitPair, Mates, Half, SplitAll, Whole, Ordered, Base;
    var s, at, m := SplitAll(g), Start(g, k), HalfPairs(g, k);
    SplitAt(g, k);
    SplitLen(g[k]);
    HalfPaired(g, k, k, 0);
    var p := s[at];
    var q := FirstMate(s, m, p, 0);
    if q.Some? && (g[k].kind == BOTH ==> q.value < at) {
      AlreadyPaired(g, k, q.value);
    }
    if g[k].kind == BOTH {
      WholeAt(g, k);
      HalvesMate(g[k]);
      HalfPaired(g, k, k, 1);
      MatesDiffer(s[at], s[at + 1]);
      UdpHasNoBase(s[at + 1]);
      assert q != Some(at) by { if q == Some(at) { MatesDiffer(p, s[at]); } }
      assert q == Some(at + 1);
    }
  }

  lemma WholeAt(g: seq<Tunnel>, k: nat)
    requires Ordered(g) && k < |g| && g[k].kind == BOTH
    ensures Whole(g[k])
  {
  }

  lemma UdpHasNoBase(p: Tunnel)
    ensures p.kind == "udp" ==> Base(p).None?
  {
  }

  lemma {:induction false} RegroupFrom(g: seq<Tunnel>, k: nat)
    requires Ordered(g) && k <= |g| && PairingOk(SplitAll(g), HalfPairs(g, |g|))
    ensures GroupFrom(SplitAll(g), HalfPairs(g, |g|), Start(g, k)) == g[k..]
    decreases |g| - k
  {
    hide SplitPair, Mates, Half, SplitAll, Whole, Ordered, Base, PairingOk, Join, HalfPairs;
    var s, m, at := SplitAll(g), HalfPairs(g, |g|), Start(g, k);
    if k < |g| {
      RegroupFrom(g, k + 1);
      SplitAt(g, k);
      SplitLen(g[k]);
      HalfPaired(g, |g|, k, 0);
      assert g[k..] == [g[k]] + g[k + 1..];
      if g[k].kind == BOTH {
        HalfPaired(g, |g|, k, 1);
        WholeAt(g, k);
        HalvesMate(g[k]);
        assert JoinAt(s, m, at) == g[k];
        assert GroupFrom(s, m, at + 1) == GroupFrom(s, m, at + 2);
      } else {
        assert SplitPair(g[k]) == [g[k]] by { SingleIsItself(g[k]); }
      }
    } else {
      StartIsLength(g, |g|);
      assert g[..|g|] == g;
    }
  }

  lemma SingleIsItself(p: Tunnel)
    requires p.kind != BOTH
    ensures SplitPair(p) == [p]
  {
  }

  /** Splitting an ordered list and grouping it again changes nothing. */
  lemma RegroupOrdered(g: seq<Tunnel>)
    requires Ordered(g)
    ensures Grouped(SplitAll(g)) == g
  {
    hide SplitAll, Ordered, PairingOk, GroupFrom, HalfPairs, Pairs;
    var s := SplitAll(g);
    StartIsLength(g, |g|);
    assert g[..|g|] == g && g[0..] == g;
    SplitPairs(g, |g|);
    PairsOk(s, |s|);
    RegroupFrom(g, 0);
  }

  // ---- A grouped list is ordered ----

  /** What the first `n` tunnels paired: a tcp tunnel left alone has no free mate, and a pair takes
      the first free one. */
  ghost predicate FirstFit(s: seq<Tunnel>, mates: Pairing, n: nat)
    requires PairingOk(s, mates)
  {
    && (forall t, x :: 0 <= t < n && t < |s| && t !in mates && 0 <= x < |s| && Mates(s[t], s[x]) ==> x in mates && mates[x] < t)
    && (forall t :: t in mates && t < |s| && s[t].kind == "tcp" ==> t < n)
    && forall t, x :: t in mates && t < |s| && s[t].kind == "tcp" && 0 <= x < mates[t] && x < |s| && Mates(s[t], s[x]) ==>
         x in mates && mates[x] < t
  }

  lemma {:induction false} PairsFirstFit(s: seq<Tunnel>, n: nat)
    requires n <= |s|
    ensures PairingOk(s, Pairs(s, n)) && FirstFit(s, Pairs(s, n), n)
  {
    hide Mates, Base, PairNext;
    PairsOk(s, n);
    if n > 0 {
      PairsFirstFit(s, n - 1);
      NextFirstFit(s, Pairs(s, n - 1), n - 1);
    } else {
      assert Pairs(s, 0) == map[];
    }
  }

  lemma NextFirstFit(s: seq<Tunnel>, mates: Pairing, i: nat)
    requires i < |s| && PairingOk(s, mates) && FirstFit(s, mates, i) && PairingOk(s, PairNext(s, mates, i))
    ensures FirstFit(s, PairNext(s, mates, i), i + 1)
  {
    hide Mates, Base, FirstMate, PairingOk;
    var m' := PairNext(s, mates, i);
    NextGrows(s, mates, i);
    forall t, x | 0 <= t < i + 1 && t !in m' && 0 <= x < |s| && Mates(s[t], s[x]) ensures x in m' && m'[x] < t {
      if t == i {
        NoFreeMate(s, mates, i);
      }
    }
    forall t | t in m' && t < |s| && s[t].kind == "tcp" ensures t < i + 1 {
      NewPair(s, mates, i, t);
    }
    forall t, x | t in m' && t < |s| && s[t].kind == "tcp" && 0 <= x < m'[t] && x < |s| && Mates(s[t], s[x])
      ensures x in m' && m'[x] < t
    {
      NewPair(s, mates, i, t);
    }
  }

  // Pairs are only added.
  lemma NextGrows(s: seq<Tunnel>, mates: Pairing, i: nat)
    requires i < |s|
    ensures forall x :: x in mates ==> x in PairNext(s, mates, i) && PairNext(s, mates, i)[x] == mates[x]
  {
    hide Mates, Base;
  }

  lemma NoFreeMate(s: seq<Tunnel>, mates: Pairing, i: nat)
    requires i < |s| && PairingOk(s, mates) && FirstFit(s, mates, i) && i !in PairNext(s, mates, i)
    ensures PairNext(s, mates, i) == mates
    ensures forall x :: 0 <= x < |s| && Mates(s[i], s[x]) ==> x in mates && mates[x] < i
  {
    hide FirstMate, Base, Mates;
    assert PairNext(s, mates, i) == mates;
    forall x | 0 <= x < |s| && Mates(s[i], s[x]) ensures x in mates && mates[x] < i {
      MatesDiffer(s[i], s[x]);
      NextGrows(s, mates, i);
      assert FirstMate(s, mates, s[i], 0).None?;
      assert x in mates;
      MatesDiffer(s[mates[x]], s[x]);
    }
  }

  lemma NewPair(s: seq<Tunnel>, mates: Pairing, i: nat, t: nat)
    requires i < |s| && PairingOk(s, mates) && FirstFit(s, mates, i)
    requires t in PairNext(s, mates, i) && t < |s| && s[t].kind == "tcp"
    ensures var m' := PairNext(s, mates, i);
            t < i + 1 && forall x :: 0 <= x < m'[t] && x < |s| && Mates(s[t], s[x]) ==> x in m' && m'[x] < t
  {
    hide FirstMate, Base, Mates;
    NextGrows(s, mates, i);
    if t !in mates {
      var q := FirstMate(s, mates, s[i], 0).value;
      assert t == i || t == q;
      MatesDiffer(s[i], s[q]);
      forall x | 0 <= x < q && Mates(s[i], s[x]) ensures x in mates && mates[x] < i {
        assert x in mates;
        MatesDiffer(s[i], s[x]);
        assert s[mates[x]].kind == "tcp" by { MatesDiffer(s[mates[x]], s[x]); }
      }
    }
  }

  /** Entry `e` of the grouped list comes from position `k`. */
  predicate From(s: seq<Tunnel>, mates: Pairing, k: nat, e: Tunnel)
    requires PairingOk(s, mates)
  {
    k < |s| && (if k in mates then mates[k] > k && e == JoinAt(s, mates, k) else e == s[k])
  }

  lemma GroupStep(s: seq<Tunnel>, mates: Pairing, i: nat)
    requires PairingOk(s, mates)
    ensures var g := GroupFrom(s, mates, i);
            if i >= |s| then g == [] else if i in mates && mates[i] < i then g == GroupFrom(s, mates, i + 1)
            else |g| > 0 && From(s, mates, i, g[0]) && g[1..] == GroupFrom(s, mates, i + 1)
  {
    hide Mates, JoinAt;
    if i < |s| && i in mates {
      SelfIsNoMate(s, mates, i);
    }
  }

  lemma {:induction false} EntriesFrom(s: seq<Tunnel>, mates: Pairing, i: nat, a: nat) returns (k: nat)
    requires PairingOk(s, mates) && a < |GroupFrom(s, mates, i)|
    ensures i <= k && From(s, mates, k, GroupFrom(s, mates, i)[a])
    decreases |s| - i
  {
    hide PairingOk, GroupFrom, From;
    GroupStep(s, mates, i);
    if i in mates && mates[i] < i {
      k := EntriesFrom(s, mates, i + 1, a);
    } else if a == 0 {
      k := i;
    } else {
      k := EntriesFrom(s, mates, i + 1, a - 1);
    }
  }

  lemma SelfIsNoMate(s: seq<Tunnel>, mates: Pairing, i: nat)
    requires PairingOk(s, mates) && i in mates
    ensures mates[i] != i
  {
  }

  // Entries stand in the order of the tunnels they come from.
  lemma {:induction false} EntriesInOrder(s: seq<Tunnel>, mates: Pairing, i: nat, a: nat, b: nat) returns (k: nat, l: nat)
    requires PairingOk(s, mates) && a < b < |GroupFrom(s, mates, i)|
    ensures i <= k < l && From(s, mates, k, GroupFrom(s, mates, i)[a]) && From(s, mates, l, GroupFrom(s, mates, i)[b])
    decreases |s| - i
  {
    hide PairingOk, GroupFrom, From;
    GroupStep(s, mates, i);
    if i in mates && mates[i] < i {
      k, l := EntriesInOrder(s, mates, i + 1, a, b);
    } else if a == 0 {
      k := i;
      l := EntriesFrom(s, mates, i + 1, b - 1);
    } else {
      k, l := EntriesInOrder(s, mates, i + 1, a - 1, b - 1);
    }
  }

  lemma JoinIsWhole(s: seq<Tunnel>, mates: Pairing, k: nat)
    requires PairingOk(s, mates) && k in mates
    ensures Whole(JoinAt(s, mates, k))
  {
    var t := if s[k].kind == "tcp" then s[k] else s[mates[k]];
    var u := if s[k].kind == "tcp" then s[mates[k]] else s[k];
    assert Mates(t, u) && JoinAt(s, mates, k) == Join(t, u);
  }

  lemma FromKind(s: seq<Tunnel>, mates: Pairing, k: nat, e: Tunnel)
    requires PairingOk(s, mates) && NoBoth(s) && From(s, mates, k, e)
    ensures e.kind == BOTH <==> k in mates
    ensures e.kind == BOTH ==> Whole(e)
  {
    if k in mates {
      JoinIsWhole(s, mates, k);
    } else {
      assert Single(s[k]);
    }
  }

  // An entry with a kind of its own mates nothing.
  lemma NoneToPair(s: seq<Tunnel>, mates: Pairing, k: nat, e: Tunnel, l: nat, f: Tunnel)
    requires PairingOk(s, mates) && NoBoth(s) && FirstFit(s, mates, |s|)
    requires From(s, mates, k, e) && From(s, mates, l, f)
    ensures !Mates(e, f)
  {
    hide Mates, Base, Whole, JoinAt, NoBoth;
    FromKind(s, mates, k, e);
    FromKind(s, mates, l, f);
    BothMatesNone(e, f);
  }

  lemma BothMatesNone(e: Tunnel, f: Tunnel)
    ensures e.kind == BOTH || f.kind == BOTH ==> !Mates(e, f)
  {
  }

  // A tunnel left alone does not stand in front of an entry made of tunnels like it.
  lemma AloneIsBehind(s: seq<Tunnel>, mates: Pairing, k: nat, l: nat)
    requires PairingOk(s, mates) && FirstFit(s, mates, |s|)
    requires k < l < |s| && k !in mates && l in mates && mates[l] > l
    ensures !Half(JoinAt(s, mates, l), s[k])
  {
    hide Base, Whole, Half, JoinAt, Mates;
    var t := if s[l].kind == "tcp" then l else mates[l];
    var u := mates[t];
    assert s[t].kind == "tcp" && Mates(s[t], s[u]) by { TcpSide(s, mates, l); }
    assert JoinAt(s, mates, l) == Join(s[t], s[u]) by { TcpSide(s, mates, l); }
    HalfOfJoin(s[t], s[u], s[k]);
    assert !Mates(s[k], s[u]) && !Mates(s[t], s[k]);
  }

  lemma TcpSide(s: seq<Tunnel>, mates: Pairing, l: nat)
    requires PairingOk(s, mates) && l in mates
    ensures var t := if s[l].kind == "tcp" then l else mates[l];
            && t in mates && mates[t] in mates && mates[mates[t]] == t && s[t].kind == "tcp" && Mates(s[t], s[mates[t]])
            && JoinAt(s, mates, l) == Join(s[t], s[mates[t]])
  {
  }

  lemma HalfOfJoin(t: Tunnel, u: Tunnel, p: Tunnel)
    requires Mates(t, u)
    ensures Half(Join(t, u), p) && p.kind == "tcp" ==> Mates(p, u)
    ensures Half(Join(t, u), p) && p.kind != "tcp" ==> Mates(t, p)
  {
    var b := Join(t, u);
    assert Whole(b) && Half(b, t) && Half(b, u) by { assert t.name == b.name + "-tcp"; }
    HalfMates(b, p, u);
    HalfMates(b, t, p);
  }

  lemma GroupedOrdered(s: seq<Tunnel>)
    requires NoBoth(s)
    ensures Ordered(Grouped(s))
  {
    hide PairingOk, FirstFit, NoBoth, Mates, Half, Whole, JoinAt, GroupFrom, Pairs;
    PairsFirstFit(s, |s|);
    var mates := Pairs(s, |s|);
    var g := Grouped(s);
    forall i | 0 <= i < |g| ensures g[i].kind != BOTH || Whole(g[i]) {
      var k := EntriesFrom(s, mates, 0, i);
      FromKind(s, mates, k, g[i]);
    }
    forall i, j | 0 <= i < |g| && 0 <= j < |g| ensures !Mates(g[i], g[j]) {
      var k := EntriesFrom(s, mates, 0, i);
      var l := EntriesFrom(s, mates, 0, j);
      NoneToPair(s, mates, k, g[i], l, g[j]);
    }
    forall i, j | 0 <= i < j < |g| && g[j].kind == BOTH && g[i].kind != BOTH ensures !Half(g[j], g[i]) {
      var k, l := EntriesInOrder(s, mates, 0, i, j);
      FromKind(s, mates, k, g[i]);
      FromKind(s, mates, l, g[j]);
      AloneIsBehind(s, mates, k, l);
    }
  }

  /** Splitting a grouped list and grouping it again gives the same list. */
  lemma RegroupIsSame(s: seq<Tunnel>)
    requires NoBoth(s)
    ensures Grouped(SplitAll(Grouped(s))) == Grouped(s)
  {
    hide Ordered, SplitAll, Grouped;
    GroupedOrdered(s);
    RegroupOrdered(Grouped(s));
  }

  // ---- What a grouped list is ----

  /** A tcp tunnel with a public port, named `b`-tcp on one line, and a udp tunnel named `b`-udp with the same
      settings. */
  ghost predicate ArePair(t: Tunnel, u: Tunnel) {
    && t.kind == "tcp" && u.kind == "udp" && t.settings == u.settings && t.settings.remotePort != ""
    && exists b :: b != "" && t.name == b + "-tcp" && u.name == b + "-udp"
                   && forall i :: 0 <= i < |b| ==> !LineBreak(b[i])
  }

  /** The entry stands for the two: it has the settings, and the comments and notes of each. */
  ghost predicate StandsFor(e: Tunnel, t: Tunnel, u: Tunnel) {
    && e.kind == "both" && e.name + "-tcp" == t.name && e.uid == t.uid && e.settings == t.settings
    && e.comments == t.comments && e.notes == t.notes
    && e.udpComments == u.comments && e.udpNotes == Some(u.notes)
  }

  lemma MatesArePair(t: Tunnel, u: Tunnel)
    ensures Mates(t, u) <==> ArePair(t, u)
    ensures Mates(t, u) ==> StandsFor(Join(t, u), t, u)
  {
    if Mates(t, u) {
      var b := Base(t).value;
      assert t.name == b + "-tcp" && forall i :: 0 <= i < |b| ==> b[i] == t.name[i];
    }
    if ArePair(t, u) {
      var b :| b != "" && t.name == b + "-tcp" && u.name == b + "-udp" && forall i :: 0 <= i < |b| ==> !LineBreak(b[i]);
      assert t.name[..|t.name| - 4] == b && EndsWith(t.name, "-tcp");
      assert forall i :: 0 <= i < |b| ==> t.name[i] == b[i];
    }
  }

  /** Partners go both ways and are pairs; going through the tcp tunnels in order, each takes the first of its
      udp tunnels that no earlier one took, if there is one. */
  ghost predicate Partners(s: seq<Tunnel>, partner: Pairing) {
    && (forall i :: i in partner ==> i < |s| && partner[i] < |s| && partner[i] in partner && partner[partner[i]] == i)
    && (forall i :: i in partner ==> ArePair(s[i], s[partner[i]]) || ArePair(s[partner[i]], s[i]))
    && (forall t, x :: 0 <= t < |s| && 0 <= x < |s| && ArePair(s[t], s[x]) && (t in partner ==> x < partner[t]) ==>
          x in partner && partner[x] < t)
  }

  /** The entries stand at these places of the list: one for each tunnel without a partner, and one for each
      two partners, at the first of the two. */
  ghost predicate Entries(s: seq<Tunnel>, partner: Pairing, g: seq<Tunnel>, places: seq<nat>) {
    && |places| == |g|
    && (forall a, b :: 0 <= a < b < |places| ==> places[a] < places[b])
    && (forall a :: 0 <= a < |g| ==> EntryAt(s, partner, g[a], places[a]))
    && (forall k :: 0 <= k < |s| && (k in partner ==> k < partner[k]) ==> k in places)
  }

  ghost predicate EntryAt(s: seq<Tunnel>, partner: Pairing, e: Tunnel, k: nat) {
    && k < |s|
    && if k in partner then
         && k < partner[k] < |s|
         && if s[k].kind == "tcp" then StandsFor(e, s[k], s[partner[k]]) else StandsFor(e, s[partner[k]], s[k])
       else e == s[k]
  }

  lemma PartnersOf(s: seq<Tunnel>, mates: Pairing)
    requires PairingOk(s, mates) && FirstFit(s, mates, |s|)
    ensures Partners(s, mates)
  {
    hide Mates, ArePair, Base;
    forall t, u ensures Mates(t, u) <==> ArePair(t, u) {
      MatesArePair(t, u);
    }
    forall t, x | 0 <= t < |s| && 0 <= x < |s| && ArePair(s[t], s[x]) && (t in mates ==> x < mates[t])
      ensures x in mates && mates[x] < t
    {
      MatesDiffer(s[t], s[x]);
    }
  }

  lemma FromIsEntry(s: seq<Tunnel>, mates: Pairing, k: nat, e: Tunnel)
    requires PairingOk(s, mates) && From(s, mates, k, e)
    ensures EntryAt(s, mates, e, k)
  {
    hide Mates, Join, StandsFor;
    if k in mates {
      if s[k].kind == "tcp" {
        MatesArePair(s[k], s[mates[k]]);
      } else {
        MatesArePair(s[mates[k]], s[k]);
      }
    }
  }

  // The entries from `i` on, and where they stand.
  ghost predicate EntriesFor(s: seq<Tunnel>, mates: Pairing, g: seq<Tunnel>, i: nat, places: seq<nat>) {
    && |places| == |g|
    && (forall a, b :: 0 <= a < b < |places| ==> places[a] < places[b])
    && (forall a :: 0 <= a < |places| ==> i <= places[a] && EntryAt(s, mates, g[a], places[a]))
    && forall k :: i <= k < |s| && (k in mates ==> k < mates[k]) ==> k in places
  }

  lemma OneEntryMore(s: seq<Tunnel>, mates: Pairing, e: Tunnel, g: seq<Tunnel>, i: nat, places: seq<nat>)
    requires EntriesFor(s, mates, g, i + 1, places) && EntryAt(s, mates, e, i)
    ensures EntriesFor(s, mates, [e] + g, i, [i] + places)
  {
    hide EntryAt;
    var all, h := [i] + places, [e] + g;
    forall a | 0 <= a < |all| ensures i <= all[a] && EntryAt(s, mates, h[a], all[a]) {
      if a > 0 {
        assert all[a] == places[a - 1] && h[a] == g[a - 1];
      }
    }
    forall a, b | 0 <= a < b < |all| ensures all[a] < all[b] {
      assert all[b] == places[b - 1] && (a > 0 ==> all[a] == places[a - 1]);
    }
    forall k | i <= k < |s| && (k in mates ==> k < mates[k]) ensures k in all {
      assert k > i ==> k in places;
    }
  }

  lemma {:induction false} PlacesFrom(s: seq<Tunnel>, mates: Pairing, i: nat) returns (places: seq<nat>)
    requires PairingOk(s, mates)
    ensures EntriesFor(s, mates, GroupFrom(s, mates, i), i, places)
    decreases |s| - i
  {
    hide PairingOk, GroupFrom, From, EntryAt;
    GroupStep(s, mates, i);
    if i >= |s| {
      places := [];
    } else {
      places := PlacesFrom(s, mates, i + 1);
      if !(i in mates && mates[i] < i) {
        var g := GroupFrom(s, mates, i);
        FromIsEntry(s, mates, i, g[0]);
        OneEntryMore(s, mates, g[0], g[1..], i, places);
        assert g == [g[0]] + g[1..];
        places := [i] + places;
      }
    }
  }

  /** What grouping gives, tunnel by tunnel. */
  lemma GroupedMeans(s: seq<Tunnel>)
    ensures exists partner, places :: Partners(s, partner) && Entries(s, partner, Grouped(s), places)
  {
    hide PairingOk, FirstFit, Mates, GroupFrom, Pairs, EntryAt, Partners;
    PairsFirstFit(s, |s|);
    var mates := Pairs(s, |s|);
    PartnersOf(s, mates);
    var places := PlacesFrom(s, mates, 0);
    assert Entries(s, mates, Grouped(s), places);
  }
}
