/** The last address of a network, computed on the sixteen bytes of an address. */
module NetAddr {
  import opened Powers
  import opened Bytes
  import opened Cidr

  const MAPPED: nat := 0xFFFF
  const TWO32: nat := 0x1_0000_0000

  function Width(is4: bool): nat {
    if is4 then 32 else 128
  }

  /** `b | 1 << k` on one byte. */
  function OrBit(b: Byte, k: nat): (r: Byte)
    requires k < 8
  {
    Pow2Eight();
    var bit := [1, 2, 4, 8, 16, 32, 64, 128][k];
    if b / bit % 2 == 1 then b else OrFits(b, k); b + bit
  }

  lemma OrFits(b: Byte, k: nat)
    requires k < 8
    requires b / [1, 2, 4, 8, 16, 32, 64, 128][k] % 2 == 0
    ensures b + [1, 2, 4, 8, 16, 32, 64, 128][k] < 256
  {
  }

  lemma OrClearBit(b: Byte, k: nat)
    requires k < 8 && b % Pow2(k + 1) == 0
    ensures OrBit(b, k) == b + Pow2(k)
  {
    Pow2Eight();
  }

  // A multiple of 2^n with n >= 8, without its last byte.
  lemma HighPart(h: nat, l: Byte, n: nat)
    requires n >= 8 && (256 * h + l) % Pow2(n) == 0
    ensures h % Pow2(n - 8) == 0
  {
    var q := MultipleSplit(256 * h + l, Pow2(n));
    Pow2Add(8, n - 8);
    Pow2Eight();
    TimesByte(q, Pow2(n - 8));
    UniqueQuotient(256 * h + l, q * Pow2(n - 8), 0, 256);
    UniqueQuotient(256 * h + l, h, l, 256);
    MultipleIntro(q, Pow2(n - 8));
  }

  lemma TimesByte(q: nat, c: nat)
    ensures q * (256 * c) == (q * c) * 256
  {
  }

  // The last byte of a multiple of 2^n with n <= 8.
  lemma LowPart(h: nat, l: Byte, n: nat)
    requires n <= 8 && (256 * h + l) % Pow2(n) == 0
    ensures l % Pow2(n) == 0
  {
    Pow2Eight();
    MultipleIntro(h, 256);
    MultipleOfSmaller(h * 256, n, 8);
    MultipleDiff(256 * h, l, Pow2(n));
  }

  lemma Pow2Byte(k: nat)
    requires k >= 8
    ensures Pow2(k) == 256 * Pow2(k - 8)
  {
    Pow2Add(8, k - 8);
    Pow2Eight();
  }

  /** Setting one bit below which everything is clear adds that power of two. */
  lemma {:induction false} SetBitAdds(b: seq<Byte>, k: nat)
    requires k < 8 * |b| && ValueOf(b) % Pow2(k + 1) == 0
    ensures var j := |b| - 1 - k / 8;
            ValueOf(b[j := OrBit(b[j], k % 8)]) == ValueOf(b) + Pow2(k)
    decreases |b|
  {
    hide OrBit, Pow2;
    var n := |b| - 1;
    if k < 8 {
      LowPart(ValueOf(b[..n]), b[n], k + 1);
      OrClearBit(b[n], k);
      UpdateLast(b, OrBit(b[n], k));
    } else {
      var j := n - k / 8;
      HighPart(ValueOf(b[..n]), b[n], k + 1);
      SetBitAdds(b[..n], k - 8);
      UpdateEarlier(b, j, OrBit(b[j], k % 8));
      Pow2Byte(k);
    }
  }

  lemma UpdateLast(b: seq<Byte>, c: Byte)
    requires b != []
    ensures ValueOf(b[|b| - 1 := c]) == 256 * ValueOf(b[..|b| - 1]) + c
  {
    assert b[|b| - 1 := c][..|b| - 1] == b[..|b| - 1];
  }

  lemma UpdateEarlier(b: seq<Byte>, j: nat, c: Byte)
    requires j < |b| - 1
    ensures ValueOf(b[j := c]) == 256 * ValueOf(b[..|b| - 1][j := c]) + b[|b| - 1]
  {
    assert b[j := c][..|b| - 1] == b[..|b| - 1][j := c];
  }

  /** The sixteen-byte form: an IPv4 address is mapped into ::ffff:0:0/96. */
  function As16(is4: bool, addr: nat): (b: seq<Byte>)
    ensures |b| == 16
  {
    ToBytes(Wide(is4, addr), 16)
  }

  function From16(is4: bool, b: seq<Byte>): nat {
    var v := ValueOf(b);
    if is4 && v / TWO32 == MAPPED then v % TWO32 else v
  }

  lemma MappedMultiple(n: nat)
    requires n <= 32
    ensures (MAPPED * TWO32) % Pow2(n) == 0
  {
    Pow2Words();
    MultipleIntro(MAPPED, TWO32);
    MultipleOfSmaller(MAPPED * TWO32, n, 32);
  }

  /** The integer the sixteen bytes stand for. */
  function Wide(is4: bool, addr: nat): nat {
    if is4 then MAPPED * TWO32 + addr else addr
  }

  lemma WideFits(is4: bool, addr: nat)
    requires addr < Pow2(Width(is4))
    ensures Wide(is4, addr) < Pow2(128)
  {
    Pow2Words();
    Pow2Monotone(64, 128);
  }

  lemma WideMultiple(is4: bool, p: Prefix)
    requires Aligned(Width(is4), p)
    ensures Wide(is4, p.addr) % Pow2(Width(is4) - p.bits) == 0
  {
    if is4 {
      MappedMultiple(32 - p.bits);
      MultipleSum(MAPPED * TWO32, p.addr, Pow2(32 - p.bits));
    }
  }

  lemma UnmapWide(is4: bool, b: seq<Byte>, x: nat)
    requires x < Pow2(Width(is4)) && ValueOf(b) == Wide(is4, x)
    ensures From16(is4, b) == x
  {
    Pow2Words();
  }

  /** One turn of the loop on the value: the next host bit is set. */
  lemma NextHostBit(b: seq<Byte>, i: nat)
    requires |b| == 16 && i < 128 && ValueOf(b) % Pow2(128 - i) == 0
    ensures var c := b[i / 8 := OrBit(b[i / 8], 7 - i % 8)];
            && ValueOf(c) == ValueOf(b) + Pow2(127 - i)
            && ValueOf(c) % Pow2(127 - i) == 0
  {
    var k := 127 - i;
    SetBitAdds(b, k);
    MultipleOfSmaller(ValueOf(b), k, k + 1);
    MultipleIntro(1, Pow2(k));
    MultipleSum(ValueOf(b), Pow2(k), Pow2(k));
    assert i / 8 == 15 - k / 8 && 7 - i % 8 == k % 8;
  }

  /** Sets the bits from number `bits` on, one at a time, as the program does. */
  method FillHostBits(addr: seq<Byte>, bits: nat) returns (b: seq<Byte>)
    requires |addr| == 16 && bits <= 128 && ValueOf(addr) % Pow2(128 - bits) == 0
    ensures |b| == 16 && ValueOf(b) == ValueOf(addr) + Pow2(128 - bits) - 1
  {
    b := addr;
    for i := bits to 128
      invariant |b| == 16
      invariant ValueOf(b) + Pow2(128 - i) == ValueOf(addr) + Pow2(128 - bits)
      invariant ValueOf(b) % Pow2(128 - i) == 0
    {
      NextHostBit(b, i);
      b := b[i / 8 := OrBit(b[i / 8], 7 - i % 8)];
    }
  }

  /** Last address of a network: every host bit of its first address is set. */
  method Last(is4: bool, p: Prefix) returns (last: nat)
    requires Valid(Width(is4), p)
    ensures last == LastAddr(Width(is4), p)
    ensures last == Masked(Width(is4), p).addr + Pow2(Width(is4) - p.bits) - 1
  {
    hide Pow2, FloorTo, ValueOf, ToBytes, From16;
    var w := Width(is4);
    var m := Masked(w, p);
    ContainsIsRange(w, p, p.addr);
    WideMultiple(is4, m);
    WideFits(is4, m.addr);
    BytesRoundTrip(Wide(is4, m.addr), 16);
    var b := FillHostBits(As16(is4, m.addr), if is4 then m.bits + 96 else m.bits);
    UnmapWide(is4, b, LastAddr(w, p));
    last := From16(is4, b);
  }

  // ---- Public addresses ----

  function Quad(a: Byte, b: Byte, c: Byte, d: Byte): nat {
    ((a * 256 + b) * 256 + c) * 256 + d
  }

  /** Special-purpose networks of the IANA registries. */
  const PRIVATE4 := [
    Prefix(Quad(0, 0, 0, 0), 8), Prefix(Quad(10, 0, 0, 0), 8), Prefix(Quad(127, 0, 0, 0), 8),
    Prefix(Quad(169, 254, 0, 0), 16), Prefix(Quad(172, 16, 0, 0), 12), Prefix(Quad(192, 0, 0, 0), 24),
    Prefix(Quad(192, 0, 2, 0), 24), Prefix(Quad(192, 168, 0, 0), 16), Prefix(Quad(198, 18, 0, 0), 15),
    Prefix(Quad(198, 51, 100, 0), 24), Prefix(Quad(203, 0, 113, 0), 24), Prefix(Quad(240, 0, 0, 0), 4),
    Prefix(Quad(255, 255, 255, 255), 32), Prefix(Quad(100, 64, 0, 0), 10)]

  const EXCEPTIONS4 := [Prefix(Quad(192, 0, 0, 9), 32), Prefix(Quad(192, 0, 0, 10), 32)]

  const PRIVATE6 := [
    Prefix(1, 128), Prefix(0, 128), Prefix(0xFFFF_0000_0000, 96),
    Prefix(0x0064_FF9B_0001_0000_0000_0000_0000_0000, 48), Prefix(0x0100_0000_0000_0000_0000_0000_0000_0000, 64),
    Prefix(0x2001_0000_0000_0000_0000_0000_0000_0000, 23), Prefix(0x2001_0DB8_0000_0000_0000_0000_0000_0000, 32),
    Prefix(0x2002_0000_0000_0000_0000_0000_0000_0000, 16), Prefix(0x3FFF_0000_0000_0000_0000_0000_0000_0000, 20),
    Prefix(0xFC00_0000_0000_0000_0000_0000_0000_0000, 7), Prefix(0xFE80_0000_0000_0000_0000_0000_0000_0000, 10)]

  const EXCEPTIONS6 := [
    Prefix(0x2001_0001_0000_0000_0000_0000_0000_0001, 128), Prefix(0x2001_0001_0000_0000_0000_0000_0000_0002, 128),
    Prefix(0x2001_0003_0000_0000_0000_0000_0000_0000, 32), Prefix(0x2001_0004_0112_0000_0000_0000_0000_0000, 48),
    Prefix(0x2001_0020_0000_0000_0000_0000_0000_0000, 28), Prefix(0x2001_0030_0000_0000_0000_0000_0000_0000, 28)]

  predicate InAny(w: nat, nets: seq<Prefix>, x: nat) {
    exists p :: p in nets && p.bits <= w && Contains(w, p, x)
  }

  predicate IsGlobal(is4: bool, x: nat) {
    if is4 then InAny(32, EXCEPTIONS4, x) || !InAny(32, PRIVATE4, x)
    else InAny(128, EXCEPTIONS6, x) || !InAny(128, PRIVATE6, x)
  }

  /** A network is refused only when neither its first nor its last address is public. */
  predicate PrefixIsGlobal(is4: bool, p: Prefix)
    requires p.bits <= Width(is4)
  {
    IsGlobal(is4, Masked(Width(is4), p).addr) || IsGlobal(is4, LastAddr(Width(is4), p))
  }

  /** Is the address in none of the special networks, or in one of their exceptions? */
  ghost predicate Public(is4: bool, x: nat) {
    var w := Width(is4);
    || (exists q :: q in (if is4 then EXCEPTIONS4 else EXCEPTIONS6) && q.bits <= w
                    && Masked(w, q).addr <= x < Masked(w, q).addr + Pow2(w - q.bits))
    || forall q :: q in (if is4 then PRIVATE4 else PRIVATE6) && q.bits <= w ==>
         !(Masked(w, q).addr <= x < Masked(w, q).addr + Pow2(w - q.bits))
  }

  lemma InNetwork(w: nat, q: Prefix, x: nat)
    requires q.bits <= w
    ensures Contains(w, q, x) <==> Masked(w, q).addr <= x < Masked(w, q).addr + Pow2(w - q.bits)
  {
    hide Pow2;
    var d := Size(w, q);
    var f := FloorTo(q.addr, d);
    if f <= x < f + d {
      FloorIs(x, f, d);
    }
  }

  lemma InAnyByRange(w: nat, nets: seq<Prefix>, x: nat)
    ensures InAny(w, nets, x)
       <==> exists q :: q in nets && q.bits <= w && Masked(w, q).addr <= x < Masked(w, q).addr + Pow2(w - q.bits)
  {
    hide Contains, Masked, Pow2;
    forall q | q in nets && q.bits <= w
      ensures Contains(w, q, x) <==> Masked(w, q).addr <= x < Masked(w, q).addr + Pow2(w - q.bits)
    {
      InNetwork(w, q, x);
    }
  }

  lemma PublicAddress(is4: bool, x: nat)
    ensures IsGlobal(is4, x) <==> Public(is4, x)
  {
    hide Masked, Contains, InAny, PRIVATE4, PRIVATE6, EXCEPTIONS4, EXCEPTIONS6, Pow2;
    InAnyByRange(Width(is4), if is4 then EXCEPTIONS4 else EXCEPTIONS6, x);
    InAnyByRange(Width(is4), if is4 then PRIVATE4 else PRIVATE6, x);
  }

  /** A network is public exactly when its first or its last address is. */
  lemma PublicNetworks(is4: bool, p: Prefix)
    requires Valid(Width(is4), p)
    ensures PrefixIsGlobal(is4, p)
       <==> Public(is4, Masked(Width(is4), p).addr)
            || Public(is4, Masked(Width(is4), p).addr + Pow2(Width(is4) - p.bits) - 1)
  {
    hide Masked, IsGlobal, Public, Pow2;
    PublicAddress(is4, Masked(Width(is4), p).addr);
    PublicAddress(is4, LastAddr(Width(is4), p));
  }
}
