/** Networks of one address family (section 3.1 of RFC 4632) and their regrouping
    into the fewest networks with the same addresses. Addresses are integers of
    `w` bits: 32 for IPv4, 128 for IPv6. */
module Cidr {
  import opened Powers

  /** A network as the address library keeps it: host bits may be set. */
  datatype Prefix = Prefix(addr: nat, bits: nat)

  datatype Range = Range(lo: nat, hi: nat)

  ghost predicate Valid(w: nat, p: Prefix) {
    p.bits <= w && p.addr < Pow2(w)
  }

  function Size(w: nat, p: Prefix): nat
    requires p.bits <= w
  {
    Pow2(w - p.bits)
  }

  /** The same network with its host bits cleared. */
  function Masked(w: nat, p: Prefix): Prefix
    requires p.bits <= w
  {
    Prefix(FloorTo(p.addr, Size(w, p)), p.bits)
  }

  function LastAddr(w: nat, p: Prefix): nat
    requires p.bits <= w
  {
    Masked(w, p).addr + Size(w, p) - 1
  }

  /** Membership as routers decide it: equal once the host bits are cleared. */
  predicate Contains(w: nat, p: Prefix, x: nat)
    requires p.bits <= w
  {
    FloorTo(x, Size(w, p)) == FloorTo(p.addr, Size(w, p))
  }

  /** A network holds exactly the addresses from its first to its last one. */
  lemma ContainsIsRange(w: nat, p: Prefix, x: nat)
    requires Valid(w, p)
    ensures Contains(w, p, x) <==> Masked(w, p).addr <= x <= LastAddr(w, p)
    ensures LastAddr(w, p) < Pow2(w)
    ensures Aligned(w, Masked(w, p))
  {
    var d := Size(w, p);
    var f := FloorTo(p.addr, d);
    if f <= x < f + d {
      FloorIs(x, f, d);
    }
    Pow2Add(p.bits, w - p.bits);
    MultipleIntro(Pow2(p.bits), d);
    MultiplesApart(f, Pow2(w), d);
  }

  ghost predicate AllValid(w: nat, nets: seq<Prefix>) {
    forall p :: p in nets ==> Valid(w, p)
  }

  ghost predicate InUnion(w: nat, nets: seq<Prefix>, x: nat)
    requires AllValid(w, nets)
  {
    exists p :: p in nets && Contains(w, p, x)
  }

  ghost predicate InRanges(ranges: seq<Range>, x: int) {
    exists r <- ranges :: r.lo <= x <= r.hi
  }

  /** A network without host bits. */
  ghost predicate Aligned(w: nat, p: Prefix) {
    Valid(w, p) && p.addr % Size(w, p) == 0
  }

  ghost predicate Inside(w: nat, nets: seq<Prefix>, p: Prefix)
    requires AllValid(w, nets)
    requires Aligned(w, p)
  {
    forall x :: p.addr <= x < p.addr + Size(w, p) ==> InUnion(w, nets, x)
  }

  /** `p` cannot be widened: no shorter prefix around it stays inside the union. */
  ghost predicate Maximal(w: nat, nets: seq<Prefix>, p: Prefix)
    requires AllValid(w, nets)
  {
    && Aligned(w, p)
    && Inside(w, nets, p)
    && forall q :: Aligned(w, q) && q.bits < p.bits && q.addr <= p.addr < q.addr + Size(w, q) ==> !Inside(w, nets, q)
  }

  ghost predicate SortedDisjoint(w: nat, out: seq<Prefix>)
    requires forall p <- out :: p.bits <= w
  {
    forall i, j :: 0 <= i < j < |out| ==> out[i].addr + Size(w, out[i]) <= out[j].addr
  }

  /** What regrouping must return: every maximal network once, in order. */
  ghost predicate IsCollapse(w: nat, nets: seq<Prefix>, out: seq<Prefix>)
    requires AllValid(w, nets)
  {
    && (forall p :: p in out <==> Maximal(w, nets, p))
    && (forall p <- out :: p.bits <= w)
    && SortedDisjoint(w, out)
  }

  // ---- Merged ranges ----

  ghost predicate Separated(w: nat, rs: seq<Range>) {
    && (forall r <- rs :: r.lo <= r.hi < Pow2(w))
    && forall i, j :: 0 <= i < j < |rs| ==> rs[i].hi + 1 < rs[j].lo
  }

  ghost predicate Fits(w: nat, r: Range, q: Prefix)
    requires q.bits <= w
  {
    r.lo <= q.addr && q.addr + Size(w, q) <= r.hi + 1
  }

  ghost predicate MaximalIn(w: nat, r: Range, p: Prefix) {
    && Aligned(w, p)
    && Fits(w, r, p)
    && forall q :: Aligned(w, q) && q.bits < p.bits && q.addr <= p.addr < q.addr + Size(w, q) ==> !Fits(w, r, q)
  }

  // No aligned block inside the range starts before `lo` and reaches it.
  ghost predicate LeftEdge(w: nat, r: Range, lo: nat) {
    forall q :: Aligned(w, q) && Fits(w, r, q) && q.addr <= lo < q.addr + Size(w, q) ==> q.addr == lo
  }

  // The choice the inner loop makes at `lo`.
  ghost predicate Widest(w: nat, r: Range, p: Prefix) {
    && Aligned(w, p)
    && Fits(w, r, p)
    && forall b :: 0 <= b < p.bits && Aligned(w, Prefix(p.addr, b)) ==> !Fits(w, r, Prefix(p.addr, b))
  }

  lemma WidestIsMaximal(w: nat, r: Range, p: Prefix)
    requires Widest(w, r, p) && LeftEdge(w, r, p.addr)
    ensures MaximalIn(w, r, p)
  {
    forall q | Aligned(w, q) && q.bits < p.bits && q.addr <= p.addr < q.addr + Size(w, q)
      ensures !Fits(w, r, q)
    {
      assert q.addr == p.addr ==> q == Prefix(p.addr, q.bits);
    }
  }

  lemma EdgeMoves(w: nat, r: Range, p: Prefix)
    requires Widest(w, r, p) && LeftEdge(w, r, p.addr)
    ensures LeftEdge(w, r, p.addr + Size(w, p))
  {
    var next := p.addr + Size(w, p);
    forall q | Aligned(w, q) && Fits(w, r, q) && q.addr <= next < q.addr + Size(w, q)
      ensures q.addr == next
    {
      assert q.addr == p.addr ==> q == Prefix(p.addr, q.bits);
      if q.addr < next {
        if q.bits <= p.bits {
          BlocksNest(p.addr, w - p.bits, q.addr, w - q.bits, next - 1);
        } else {
          BlocksNest(q.addr, w - q.bits, p.addr, w - p.bits, next - 1);
        }
      }
    }
  }

  lemma GapsAround(w: nat, rs: seq<Range>, i: nat)
    requires Separated(w, rs) && i < |rs|
    ensures !InRanges(rs, rs[i].hi + 1)
    ensures rs[i].lo > 0 ==> !InRanges(rs, rs[i].lo - 1)
  {
  }

  // An aligned block inside a union of separated ranges lies inside one of them.
  lemma BlockInOneRange(w: nat, rs: seq<Range>, i: nat, q: Prefix, x: nat)
    requires Separated(w, rs) && i < |rs| && Aligned(w, q)
    requires forall y :: q.addr <= y < q.addr + Size(w, q) ==> InRanges(rs, y)
    requires q.addr <= x < q.addr + Size(w, q) && rs[i].lo <= x <= rs[i].hi
    ensures Fits(w, rs[i], q)
  {
    var r := rs[i];
    assert q.addr + Size(w, q) > r.hi + 1 ==> InRanges(rs, r.hi + 1);
    assert q.addr < r.lo ==> InRanges(rs, r.lo - 1);
    GapsAround(w, rs, i);
  }

  ghost predicate SameUnion(w: nat, nets: seq<Prefix>, rs: seq<Range>)
    requires AllValid(w, nets)
  {
    forall x: nat :: InUnion(w, nets, x) <==> InRanges(rs, x)
  }

  lemma LocalMaximalIsMaximal(w: nat, nets: seq<Prefix>, rs: seq<Range>, i: nat, p: Prefix)
    requires AllValid(w, nets)
    requires Separated(w, rs) && SameUnion(w, nets, rs) && i < |rs|
    requires MaximalIn(w, rs[i], p)
    ensures Maximal(w, nets, p)
  {
    forall x | p.addr <= x < p.addr + Size(w, p) ensures InUnion(w, nets, x) {
      assert rs[i] in rs && rs[i].lo <= x <= rs[i].hi;
      assert InRanges(rs, x);
    }
    forall q | Aligned(w, q) && q.bits < p.bits && q.addr <= p.addr < q.addr + Size(w, q)
      ensures !Inside(w, nets, q)
    {
      if Inside(w, nets, q) {
        BlockInOneRange(w, rs, i, q, p.addr);
      }
    }
  }

  // Two maximal blocks that share a point are the same block.
  lemma MaximalMeet(w: nat, nets: seq<Prefix>, p: Prefix, q: Prefix, x: nat)
    requires AllValid(w, nets)
    requires Maximal(w, nets, p) && Maximal(w, nets, q)
    requires p.addr <= x < p.addr + Size(w, p) && q.addr <= x < q.addr + Size(w, q)
    ensures p == q
  {
    if q.bits <= p.bits {
      BlocksNest(p.addr, w - p.bits, q.addr, w - q.bits, x);
    } else {
      BlocksNest(q.addr, w - q.bits, p.addr, w - p.bits, x);
    }
  }

  ghost predicate Covered(w: nat, out: seq<Prefix>, x: nat)
    requires forall p <- out :: p.bits <= w
  {
    exists p <- out :: p.addr <= x < p.addr + Size(w, p)
  }

  lemma MaximalBlocksComplete(w: nat, nets: seq<Prefix>, out: seq<Prefix>)
    requires AllValid(w, nets)
    requires forall p <- out :: p.bits <= w && Maximal(w, nets, p)
    requires SortedDisjoint(w, out)
    requires forall x :: InUnion(w, nets, x) ==> Covered(w, out, x)
    ensures IsCollapse(w, nets, out)
  {
    forall p | Maximal(w, nets, p) ensures p in out {
      assert InUnion(w, nets, p.addr);
      assert Covered(w, out, p.addr);
      var q :| q in out && q.addr <= p.addr < q.addr + Size(w, q);
      MaximalMeet(w, nets, p, q, p.addr);
    }
  }

  // ---- The three loops of the program ----

  ghost predicate SortedByLow(rs: seq<Range>) {
    forall i, j :: 0 <= i < j < |rs| ==> rs[i].lo <= rs[j].lo
  }

  /** Any sort by first address: ranges with the same one may come in any order. */
  method SortByLow(ranges: seq<Range>) returns (sorted: seq<Range>)
    ensures SortedByLow(sorted)
    ensures multiset(sorted) == multiset(ranges)
  {
    sorted := [];
    for n := 0 to |ranges|
      invariant SortedByLow(sorted)
      invariant multiset(sorted) == multiset(ranges[..n])
    {
      var r, at := ranges[n], |sorted|;
      while at > 0 && r.lo < sorted[at - 1].lo
        invariant 0 <= at <= |sorted|
        invariant forall k :: at <= k < |sorted| ==> r.lo < sorted[k].lo
      {
        at := at - 1;
      }
      assert ranges[..n + 1] == ranges[..n] + [r];
      InsertedSorted(sorted, at, r);
      InsertedMembers(sorted, at, r);
      sorted := sorted[..at] + [r] + sorted[at..];
    }
    assert ranges[..|ranges|] == ranges;
  }

  lemma InsertedMembers(s: seq<Range>, at: nat, r: Range)
    requires at <= |s|
    ensures multiset(s[..at] + [r] + s[at..]) == multiset(s) + multiset{r}
  {
    assert multiset(s) == multiset(s[..at]) + multiset(s[at..]) by {
      assert s == s[..at] + s[at..];
    }
  }

  lemma InsertedSorted(s: seq<Range>, at: nat, r: Range)
    requires SortedByLow(s) && at <= |s|
    requires at > 0 ==> s[at - 1].lo <= r.lo
    requires at < |s| ==> r.lo <= s[at].lo
    ensures SortedByLow(s[..at] + [r] + s[at..])
  {
    var t := s[..at] + [r] + s[at..];
    assert forall k :: 0 <= k < |t| ==> t[k] == if k < at then s[k] else if k == at then r else s[k - 1];
    assert forall k :: 0 <= k < at ==> s[k].lo <= r.lo;
    assert forall k :: at <= k < |s| ==> r.lo <= s[k].lo;
  }

  lemma SameMembers(a: seq<Range>, b: seq<Range>, x: int)
    requires multiset(a) == multiset(b)
    ensures InRanges(a, x) == InRanges(b, x)
  {
    forall r ensures r in a <==> r in b {
      assert r in a <==> r in multiset(a);
      assert r in b <==> r in multiset(b);
    }
  }

  method ToRanges(w: nat, nets: seq<Prefix>) returns (ranges: seq<Range>)
    requires AllValid(w, nets)
    ensures SameUnion(w, nets, ranges)
    ensures forall r <- ranges :: r.lo <= r.hi < Pow2(w)
    ensures nets != [] ==> ranges != []
  {
    ranges := [];
    for n := 0 to |nets|
      invariant |ranges| == n
      invariant forall k :: 0 <= k < n ==> nets[k] in nets && ranges[k] == Range(Masked(w, nets[k]).addr, LastAddr(w, nets[k]))
      invariant forall r <- ranges :: r.lo <= r.hi < Pow2(w)
    {
      ContainsIsRange(w, nets[n], 0);
      ranges := ranges + [Range(Masked(w, nets[n]).addr, LastAddr(w, nets[n]))];
    }
    forall x: nat ensures InUnion(w, nets, x) <==> InRanges(ranges, x) {
      forall k | 0 <= k < |nets|
        ensures Contains(w, nets[k], x) <==> ranges[k].lo <= x <= ranges[k].hi
      {
        ContainsIsRange(w, nets[k], x);
      }
    }
  }

  /** Overlapping and adjacent ranges become one; the others stay apart. */
  method Merge(w: nat, ranges: seq<Range>) returns (merged: seq<Range>)
    requires ranges != [] && SortedByLow(ranges)
    requires forall r <- ranges :: r.lo <= r.hi < Pow2(w)
    ensures Separated(w, merged)
    ensures forall x :: InRanges(merged, x) <==> InRanges(ranges, x)
  {
    hide InRanges;
    merged := [ranges[0]];
    assert ranges[..1] == [ranges[0]];
    for n := 1 to |ranges|
      invariant |merged| > 0 && Separated(w, merged)
      invariant merged[|merged| - 1].lo <= ranges[n - 1].lo
      invariant forall x :: InRanges(merged, x) <==> InRanges(ranges[..n], x)
    {
      var r, m := ranges[n], |merged| - 1;
      var last := merged[m];
      var next := last.hi + 1;
      ghost var before := merged;
      // The address after the last one of the family does not exist.
      if r.lo > next && next < Pow2(w) {
        merged := merged + [r];
      } else if last.hi < r.hi {
        merged := merged[m := Range(last.lo, r.hi)];
      }
      MergeUnion(before, merged, ranges, n);
    }
    assert ranges[..|ranges|] == ranges;
  }

  // One more range read, the union grows by it.
  lemma MergeUnion(before: seq<Range>, after: seq<Range>, ranges: seq<Range>, n: nat)
    requires n < |ranges| && before != [] && before[|before| - 1].lo <= ranges[n].lo
    requires forall x :: InRanges(before, x) <==> InRanges(ranges[..n], x)
    requires var m, r := |before| - 1, ranges[n];
             || after == before + [r]
             || (r.lo <= before[m].hi + 1 && before[m].hi < r.hi && after == before[m := Range(before[m].lo, r.hi)])
             || (r.hi <= before[m].hi && after == before)
    ensures forall x :: InRanges(after, x) <==> InRanges(ranges[..n + 1], x)
  {
    hide InRanges;
    var r := ranges[n];
    assert ranges[..n + 1] == ranges[..n] + [r];
    forall x ensures InRanges(after, x) <==> InRanges(ranges[..n + 1], x) {
      MergeStep(before, after, |before| - 1, r, x);
      OneMoreRange(ranges[..n], r, x);
    }
  }

  lemma OneMoreRange(rs: seq<Range>, r: Range, x: int)
    ensures InRanges(rs + [r], x) <==> InRanges(rs, x) || r.lo <= x <= r.hi
  {
    assert forall q :: q in rs + [r] <==> q in rs || q == r;
  }

  lemma MergeStep(before: seq<Range>, after: seq<Range>, m: nat, r: Range, x: int)
    requires |before| == m + 1 && before[m].lo <= r.lo
    requires
      || after == before + [r]
      || (r.lo <= before[m].hi + 1 && before[m].hi < r.hi && after == before[m := Range(before[m].lo, r.hi)])
      || (r.hi <= before[m].hi && after == before)
    ensures InRanges(after, x) <==> InRanges(before, x) || r.lo <= x <= r.hi
  {
    if InRanges(before, x) {
      var i :| 0 <= i < |before| && before[i].lo <= x <= before[i].hi;
      assert after[i] in after;
    }
    if r.lo <= x <= r.hi {
      assert after[|after| - 1] in after && before[m] in before;
    }
    if InRanges(after, x) {
      var i :| 0 <= i < |after| && after[i].lo <= x <= after[i].hi;
      if i < m {
        assert before[i] in before;
      } else {
        assert before[m] in before;
      }
    }
  }

  /** The widest aligned network at `lo` that ends by `hi`. */
  method WidestAt(w: nat, r: Range, lo: nat) returns (p: Prefix)
    requires r.lo <= lo <= r.hi < Pow2(w)
    ensures p.addr == lo && Widest(w, r, p)
  {
    var b := 0;
    while b < w && !(Masked(w, Prefix(lo, b)).addr == lo && LastAddr(w, Prefix(lo, b)) <= r.hi)
      invariant 0 <= b <= w
      invariant forall c :: 0 <= c < b && Aligned(w, Prefix(lo, c)) ==> !Fits(w, r, Prefix(lo, c))
    {
      AlignedMasked(w, Prefix(lo, b));
      b := b + 1;
    }
    p := Prefix(lo, b);
    AlignedMasked(w, p);
    assert b == w ==> Size(w, p) == 1;
  }

  lemma AlignedMasked(w: nat, p: Prefix)
    requires Valid(w, p)
    ensures Aligned(w, p) <==> Masked(w, p).addr == p.addr
  {
    if Aligned(w, p) {
      FloorIs(p.addr, p.addr, Size(w, p));
    }
  }

  // State of the decomposition: `done` ranges finished, the next one covered below `lo`.
  ghost predicate Progress(w: nat, rs: seq<Range>, done: nat, lo: nat, out: seq<Prefix>) {
    && done < |rs|
    && (forall p <- out :: Aligned(w, p))
    && (forall p <- out :: p.addr + Size(w, p) <= lo)
    && SortedDisjoint(w, out)
    && (forall p <- out :: exists i :: 0 <= i <= done && MaximalIn(w, rs[i], p))
    && (forall x, i :: 0 <= i < done && rs[i].lo <= x <= rs[i].hi ==> Covered(w, out, x))
    && (forall x :: rs[done].lo <= x < lo ==> Covered(w, out, x))
  }

  lemma ProgressStep(w: nat, rs: seq<Range>, done: nat, lo: nat, out: seq<Prefix>, p: Prefix)
    requires Progress(w, rs, done, lo, out)
    requires p.addr == lo && Widest(w, rs[done], p) && LeftEdge(w, rs[done], lo)
    ensures Progress(w, rs, done, lo + Size(w, p), out + [p])
    ensures LeftEdge(w, rs[done], lo + Size(w, p))
  {
    WidestIsMaximal(w, rs[done], p);
    EdgeMoves(w, rs[done], p);
    forall x: nat | Covered(w, out, x) || lo <= x < lo + Size(w, p)
      ensures Covered(w, out + [p], x)
    {
      if Covered(w, out, x) {
        var q :| q in out && q.addr <= x < q.addr + Size(w, q);
        assert q in out + [p];
      } else {
        assert p in out + [p];
      }
    }
  }

  /** Regrouped networks: every maximal network of the union, once, in order. */
  method Collapse(w: nat, nets: seq<Prefix>) returns (out: seq<Prefix>)
    requires AllValid(w, nets)
    ensures IsCollapse(w, nets, out)
  {
    hide Pow2, FloorTo, Contains, Maximal, MaximalIn, SameUnion, InRanges, InUnion, IsCollapse;
    out := [];
    if nets == [] {
      NothingToCollapse(w, nets);
      return;
    }
    var merged := MergedRanges(w, nets);
    for n := 0 to |merged|
      invariant n < |merged| ==> Progress(w, merged, n, merged[n].lo, out)
      invariant n == |merged| ==> Progress(w, merged, n - 1, merged[n - 1].hi + 1, out)
    {
      var r := merged[n];
      var lo := r.lo;
      var going := true;
      while going
        invariant going ==> r.lo <= lo <= r.hi
        invariant !going ==> lo == r.hi + 1
        invariant Progress(w, merged, n, lo, out) && LeftEdge(w, r, lo)
        decreases r.hi + 1 - lo
      {
        var p := WidestAt(w, r, lo);
        ProgressStep(w, merged, n, lo, out, p);
        out := out + [p];
        AlignedMasked(w, p);
        var end := LastAddr(w, p);
        lo := end + 1;
        if end == r.hi {
          going := false;
        }
      }
      if n + 1 < |merged| {
        NextRange(w, merged, n, out);
      }
    }
    FinishCollapse(w, nets, merged, out);
  }

  lemma NothingToCollapse(w: nat, nets: seq<Prefix>)
    requires nets == []
    ensures IsCollapse(w, nets, [])
  {
    hide Pow2, FloorTo, Maximal;
    MaximalBlocksComplete(w, nets, []);
  }

  /** The ranges of the networks, sorted and merged. */
  method MergedRanges(w: nat, nets: seq<Prefix>) returns (merged: seq<Range>)
    requires AllValid(w, nets) && nets != []
    ensures SameUnion(w, nets, merged) && Separated(w, merged) && merged != []
  {
    hide Pow2, FloorTo, Contains, InUnion;
    var ranges := ToRanges(w, nets);
    var sorted := SortByLow(ranges);
    forall r | r in sorted ensures r in ranges {
      assert r in multiset(sorted) && r in multiset(ranges);
    }
    assert sorted != [] by { assert |multiset(sorted)| == |multiset(ranges)|; }
    merged := Merge(w, sorted);
    assert SameUnion(w, nets, merged) by {
      forall x: nat ensures InUnion(w, nets, x) <==> InRanges(merged, x) {
        SameMembers(sorted, ranges, x);
      }
    }
    assert merged != [] by { assert InRanges(sorted, sorted[0].lo); assert InRanges(merged, sorted[0].lo); }
  }

  lemma NextRange(w: nat, rs: seq<Range>, done: nat, out: seq<Prefix>)
    requires Separated(w, rs) && done + 1 < |rs|
    requires Progress(w, rs, done, rs[done].hi + 1, out)
    ensures Progress(w, rs, done + 1, rs[done + 1].lo, out)
  {
  }

  lemma FinishCollapse(w: nat, nets: seq<Prefix>, rs: seq<Range>, out: seq<Prefix>)
    requires AllValid(w, nets) && Separated(w, rs) && SameUnion(w, nets, rs) && rs != []
    requires Progress(w, rs, |rs| - 1, rs[|rs| - 1].hi + 1, out)
    ensures IsCollapse(w, nets, out)
  {
    forall p | p in out ensures Maximal(w, nets, p) {
      var i :| 0 <= i < |rs| && MaximalIn(w, rs[i], p);
      LocalMaximalIsMaximal(w, nets, rs, i, p);
    }
    forall x: nat | InUnion(w, nets, x) ensures Covered(w, out, x) {
      assert InRanges(rs, x);
      var i :| 0 <= i < |rs| && rs[i].lo <= x <= rs[i].hi;
    }
    MaximalBlocksComplete(w, nets, out);
  }
}
