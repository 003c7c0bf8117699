/** Bytes, and the big-endian integers they spell. */
module Bytes {
  import opened Powers

  type Byte = b: int | 0 <= b < 256

  /** Big-endian value. */
  function ValueOf(b: seq<Byte>): nat {
    if b == [] then 0 else 256 * ValueOf(b[..|b| - 1]) + b[|b| - 1]
  }

  function ToBytes(v: nat, n: nat): (b: seq<Byte>)
    ensures |b| == n
  {
    if n == 0 then [] else ToBytes(v / 256, n - 1) + [v % 256]
  }

  lemma {:induction false} BytesRoundTrip(v: nat, n: nat)
    requires v < Pow2(8 * n)
    ensures ValueOf(ToBytes(v, n)) == v
    decreases n
  {
    if n > 0 {
      Pow2Add(8, 8 * (n - 1));
      Pow2Eight();
      BytesRoundTrip(v / 256, n - 1);
      var b := ToBytes(v, n);
      assert b[..n - 1] == ToBytes(v / 256, n - 1);
    }
  }

  lemma {:induction false} ValueBound(b: seq<Byte>)
    ensures ValueOf(b) < Pow2(8 * |b|)
  {
    if b != [] {
      ValueBound(b[..|b| - 1]);
      Pow2Add(8, 8 * (|b| - 1));
      Pow2Eight();
    }
  }
}
