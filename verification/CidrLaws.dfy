/** What regrouping networks means: the same addresses, one result per set of
    addresses, and no shorter list for it. */
module CidrLaws {
  import opened Powers
  import opened Cidr

  ghost function Around(w: nat, x: nat, b: nat): Prefix
    requires b <= w
  {
    Masked(w, Prefix(x, b))
  }

  lemma AroundHolds(w: nat, x: nat, b: nat)
    requires b <= w && x < Pow2(w)
    ensures Aligned(w, Around(w, x, b))
    ensures Around(w, x, b).addr <= x < Around(w, x, b).addr + Size(w, Around(w, x, b))
  {
    ContainsIsRange(w, Prefix(x, b), x);
  }

  lemma AlignedRange(w: nat, p: Prefix, x: nat)
    requires Aligned(w, p)
    ensures Contains(w, p, x) <==> p.addr <= x < p.addr + Size(w, p)
    ensures p.addr + Size(w, p) <= Pow2(w)
  {
    ContainsIsRange(w, p, x);
    AlignedMasked(w, p);
  }

  /** Every address of the union lies in some maximal network. */
  lemma MaximalExists(w: nat, nets: seq<Prefix>, x: nat) returns (p: Prefix)
    requires AllValid(w, nets) && InUnion(w, nets, x)
    ensures Maximal(w, nets, p) && p.addr <= x < p.addr + Size(w, p)
  {
    hide Inside, Around, Aligned, Contains, Pow2, InUnion, AllValid;
    PointInside(w, nets, x);
    var b := 0;
    AroundHolds(w, x, 0);
    while !Inside(w, nets, Around(w, x, b))
      invariant b <= w && Aligned(w, Around(w, x, b))
      invariant forall c :: 0 <= c < b ==> Aligned(w, Around(w, x, c)) && !Inside(w, nets, Around(w, x, c))
      decreases w - b
    {
      b := b + 1;
      AroundHolds(w, x, b);
    }
    p := Around(w, x, b);
    AroundHolds(w, x, b);
    AroundBits(w, x, b);
    forall q | Aligned(w, q) && q.bits < p.bits && q.addr <= p.addr < q.addr + Size(w, q)
      ensures !Inside(w, nets, q)
    {
      WiderAround(w, x, p, q);
    }
  }

  lemma AroundBits(w: nat, x: nat, b: nat)
    requires x < Pow2(w) && b <= w
    ensures Around(w, x, b).bits == b
  {
  }

  lemma PointSize(w: nat, x: nat)
    requires x < Pow2(w)
    ensures Size(w, Around(w, x, w)) == 1
  {
  }

  // The narrowest block around an address is that address.
  lemma PointInside(w: nat, nets: seq<Prefix>, x: nat)
    requires AllValid(w, nets) && InUnion(w, nets, x)
    ensures x < Pow2(w) && Aligned(w, Around(w, x, w)) && Inside(w, nets, Around(w, x, w))
  {
    hide Contains, Aligned, Pow2;
    var n :| n in nets && Contains(w, n, x);
    ContainsIsRange(w, n, x);
    AroundHolds(w, x, w);
    PointSize(w, x);
  }

  lemma WiderAround(w: nat, x: nat, p: Prefix, q: Prefix)
    requires Aligned(w, p) && Aligned(w, q) && q.bits < p.bits
    requires q.addr <= p.addr < q.addr + Size(w, q) && p.addr <= x < p.addr + Size(w, p)
    ensures x < Pow2(w) && q == Around(w, x, q.bits)
  {
    BlocksNest(p.addr, w - p.bits, q.addr, w - q.bits, p.addr);
    OnlyOneAround(w, x, q);
  }

  lemma OnlyOneAround(w: nat, x: nat, q: Prefix)
    requires Aligned(w, q) && q.addr <= x < q.addr + Size(w, q)
    ensures x < Pow2(w) && q == Around(w, x, q.bits)
  {
    AlignedRange(w, q, x);
    AroundHolds(w, x, q.bits);
    BlocksNest(q.addr, w - q.bits, Around(w, x, q.bits).addr, w - q.bits, x);
    BlocksNest(Around(w, x, q.bits).addr, w - q.bits, q.addr, w - q.bits, x);
  }

  /** Regrouping keeps the addresses: a network list and its regrouped form hold the same ones. */
  lemma CollapseKeepsUnion(w: nat, nets: seq<Prefix>, out: seq<Prefix>)
    requires AllValid(w, nets) && IsCollapse(w, nets, out)
    ensures AllValid(w, out)
    ensures forall x: nat :: InUnion(w, nets, x) <==> InUnion(w, out, x)
  {
    forall x: nat ensures InUnion(w, nets, x) <==> InUnion(w, out, x) {
      if InUnion(w, nets, x) {
        var p := MaximalExists(w, nets, x);
        AlignedRange(w, p, x);
      }
      if InUnion(w, out, x) {
        var p :| p in out && Contains(w, p, x);
        AlignedRange(w, p, x);
      }
    }
  }

  lemma {:induction false} SameSorted(w: nat, a: seq<Prefix>, b: seq<Prefix>)
    requires forall p <- a :: p.bits <= w
    requires forall p <- b :: p.bits <= w
    requires SortedDisjoint(w, a) && SortedDisjoint(w, b)
    requires forall p :: p in a <==> p in b
    ensures a == b
  {
    assert a != [] ==> a[0] in a;
    assert b != [] ==> b[0] in b;
    if a != [] && b != [] {
      FirstAgrees(w, a, b);
      FirstAgrees(w, b, a);
      forall p ensures p in a[1..] <==> p in b[1..] {
        TailMembers(w, a, p);
        TailMembers(w, b, p);
      }
      SameSorted(w, a[1..], b[1..]);
      assert a == [a[0]] + a[1..] && b == [b[0]] + b[1..];
    }
  }

  lemma FirstAgrees(w: nat, a: seq<Prefix>, b: seq<Prefix>)
    requires forall p <- a :: p.bits <= w
    requires forall p <- b :: p.bits <= w
    requires a != [] && b != [] && SortedDisjoint(w, b) && SortedDisjoint(w, a)
    requires forall p :: p in a <==> p in b
    ensures a[0] == b[0]
  {
    assert a[0] in a && b[0] in b;
    var i :| 0 <= i < |b| && b[i] == a[0];
    var j :| 0 <= j < |a| && a[j] == b[0];
  }

  lemma TailMembers(w: nat, a: seq<Prefix>, p: Prefix)
    requires forall q <- a :: q.bits <= w
    requires a != [] && SortedDisjoint(w, a)
    ensures p in a[1..] <==> p in a && p != a[0]
  {
  }

  /** The result depends on the set of addresses alone. */
  lemma CollapseIsCanonical(w: nat, nets: seq<Prefix>, other: seq<Prefix>, a: seq<Prefix>, b: seq<Prefix>)
    requires AllValid(w, nets) && AllValid(w, other)
    requires IsCollapse(w, nets, a) && IsCollapse(w, other, b)
    requires forall x: nat :: InUnion(w, nets, x) <==> InUnion(w, other, x)
    ensures a == b
  {
    forall p ensures Maximal(w, nets, p) <==> Maximal(w, other, p) {
      SameInside(w, nets, other);
    }
    SameSorted(w, a, b);
  }

  lemma SameInside(w: nat, nets: seq<Prefix>, other: seq<Prefix>)
    requires AllValid(w, nets) && AllValid(w, other)
    requires forall x: nat :: InUnion(w, nets, x) <==> InUnion(w, other, x)
    ensures forall q :: Aligned(w, q) ==> (Inside(w, nets, q) <==> Inside(w, other, q))
  {
  }

  lemma {:induction false} Pigeonhole(f: seq<nat>, m: nat)
    requires forall i :: 0 <= i < |f| ==> f[i] < m
    requires forall i, j :: 0 <= i < j < |f| ==> f[i] != f[j]
    ensures |f| <= m
    decreases m
  {
    assert |f| > 0 ==> f[0] < m;
    if m > 0 {
      if k :| 0 <= k < |f| && f[k] == m - 1 {
        Pigeonhole(f[..k] + f[k + 1..], m - 1);
      } else {
        Pigeonhole(f, m - 1);
      }
    }
  }

  // Entry i of the list covers the start of the block and nothing outside the block.
  ghost predicate Houses(w: nat, list: seq<Prefix>, i: nat, block: Prefix)
    requires AllValid(w, list) && block.bits <= w
  {
    && i < |list|
    && list[i] in list
    && Contains(w, list[i], block.addr)
    && forall x: nat :: Contains(w, list[i], x) ==> block.addr <= x < block.addr + Size(w, block)
  }

  // A network of any list with the same addresses sits inside the maximal block around it.
  lemma CoverInsideBlock(w: nat, nets: seq<Prefix>, list: seq<Prefix>, block: Prefix) returns (i: nat)
    requires AllValid(w, nets) && AllValid(w, list) && Maximal(w, nets, block)
    requires forall x: nat :: InUnion(w, nets, x) <==> InUnion(w, list, x)
    ensures Houses(w, list, i, block)
  {
    assert InUnion(w, nets, block.addr) && InUnion(w, list, block.addr);
    i :| 0 <= i < |list| && list[i] in list && Contains(w, list[i], block.addr);
    var n := list[i];
    var m := Masked(w, n);
    ContainsIsRange(w, n, block.addr);
    NetworkInside(w, nets, list, n);
    assert m.bits >= block.bits;
    BlocksNest(m.addr, w - m.bits, block.addr, w - block.bits, block.addr);
    forall x: nat | Contains(w, n, x) ensures block.addr <= x < block.addr + Size(w, block) {
      ContainsIsRange(w, n, x);
    }
  }

  lemma NetworkInside(w: nat, nets: seq<Prefix>, list: seq<Prefix>, n: Prefix)
    requires AllValid(w, nets) && AllValid(w, list) && n in list
    requires forall x: nat :: InUnion(w, nets, x) <==> InUnion(w, list, x)
    ensures Aligned(w, Masked(w, n)) && Inside(w, nets, Masked(w, n))
  {
    var m := Masked(w, n);
    ContainsIsRange(w, n, n.addr);
    forall x: nat | m.addr <= x < m.addr + Size(w, m) ensures InUnion(w, nets, x) {
      ContainsIsRange(w, n, x);
      assert InUnion(w, list, x);
    }
  }

  lemma HousesApart(w: nat, list: seq<Prefix>, i: nat, a: Prefix, j: nat, b: Prefix)
    requires AllValid(w, list) && a.bits <= w && b.bits <= w
    requires Houses(w, list, i, a) && Houses(w, list, j, b)
    requires a.addr + Size(w, a) <= b.addr
    ensures i != j
  {
  }

  /** No list of networks with the same addresses is shorter. */
  lemma CollapseIsShortest(w: nat, nets: seq<Prefix>, out: seq<Prefix>, list: seq<Prefix>)
    requires AllValid(w, nets) && AllValid(w, list) && IsCollapse(w, nets, out)
    requires forall x: nat :: InUnion(w, nets, x) <==> InUnion(w, list, x)
    ensures |out| <= |list|
  {
    var f: seq<nat> := [];
    for n := 0 to |out|
      invariant |f| == n
      invariant forall k :: 0 <= k < n ==> Houses(w, list, f[k], out[k])
      invariant forall j, k :: 0 <= j < k < n ==> f[j] != f[k]
    {
      assert out[n] in out;
      var i := CoverInsideBlock(w, nets, list, out[n]);
      forall k | 0 <= k < n ensures f[k] != i {
        HousesApart(w, list, f[k], out[k], i, out[n]);
      }
      f := f + [i];
    }
    Pigeonhole(f, |list|);
  }
}
