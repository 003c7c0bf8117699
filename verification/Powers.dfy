/** Multiples, powers of two, and the aligned blocks of integers they delimit. */
module Powers {

  // ---- Products ----

  lemma ProductOrder(a: nat, b: nat, d: nat)
    requires d > 0
    ensures a * d < (b + 1) * d ==> a <= b
  {
    if a > b {
      assert a * d == (b + 1) * d + (a - b - 1) * d;
    }
  }

  lemma ProductMonotone(a: nat, b: nat, d: nat)
    requires a <= b
    ensures a * d <= b * d
  {
    assert b * d == a * d + (b - a) * d;
  }

  lemma Distribute(a: nat, b: nat, d: nat)
    ensures (a + b) * d == a * d + b * d
  {
  }

  lemma Associate(a: nat, b: nat, c: nat)
    ensures a * (b * c) == (a * b) * c
  {
  }

  // ---- Multiples, with as little division as possible ----

  lemma DivMod(x: nat, d: nat)
    requires d > 0
    ensures x == x / d * d + x % d && x % d < d
  {
  }

  lemma MultipleSplit(x: nat, d: nat) returns (q: nat)
    requires d > 0 && x % d == 0
    ensures x == q * d && q == x / d
  {
    q := x / d;
    DivMod(x, d);
  }

  lemma MultipleIntro(q: nat, d: nat)
    requires d > 0
    ensures (q * d) % d == 0
    ensures (q * d) / d == q
  {
    var x := q * d;
    ProductMonotone(0, q, d);
    UniqueQuotient(x, q, 0, d);
  }

  lemma UniqueQuotient(x: nat, q: nat, r: nat, d: nat)
    requires d > 0 && r < d && x == q * d + r
    ensures x / d == q && x % d == r
  {
    var p := x / d;
    DivMod(x, d);
    Distribute(p, 1, d);
    Distribute(q, 1, d);
    ProductOrder(p, q, d);
    ProductOrder(q, p, d);
  }

  lemma MultipleOfFactor(x: nat, e: nat, d: nat)
    requires d > 0 && e > 0 && e * d > 0 && x % (e * d) == 0
    ensures x % d == 0
  {
    var q := MultipleSplit(x, e * d);
    Associate(q, e, d);
    MultipleIntro(q * e, d);
  }

  lemma MultipleSum(x: nat, y: nat, d: nat)
    requires d > 0 && x % d == 0 && y % d == 0
    ensures (x + y) % d == 0
  {
    var p := MultipleSplit(x, d);
    var q := MultipleSplit(y, d);
    Distribute(p, q, d);
    MultipleIntro(p + q, d);
  }

  lemma MultipleDiff(x: nat, y: nat, d: nat)
    requires d > 0 && x % d == 0 && (x + y) % d == 0
    ensures y % d == 0
  {
    var p := MultipleSplit(x, d);
    var q := MultipleSplit(x + y, d);
    ProductOrder(p, q, d);
    Distribute(q, 1, d);
    Distribute(q - p, p, d);
    MultipleIntro(q - p, d);
  }

  // Different multiples of d are at least d apart.
  lemma MultiplesApart(x: nat, y: nat, d: nat)
    requires d > 0 && x % d == 0 && y % d == 0 && x < y
    ensures x + d <= y
  {
    var p := MultipleSplit(x, d);
    var q := MultipleSplit(y, d);
    ProductOrder(q, p, d);
    Distribute(p, 1, d);
  }

  /** The multiple of d at or just below x. */
  function FloorTo(x: nat, d: nat): (r: nat)
    requires d > 0
    ensures r % d == 0 && r <= x < r + d
  {
    DivMod(x, d);
    ProductMonotone(0, x / d, d);
    MultipleIntro(x / d, d);
    x / d * d
  }

  lemma FloorIs(x: nat, r: nat, d: nat)
    requires d > 0 && r % d == 0 && r <= x < r + d
    ensures FloorTo(x, d) == r
  {
    var f := FloorTo(x, d);
    if f < r {
      MultiplesApart(f, r, d);
    } else if r < f {
      MultiplesApart(r, f, d);
    }
  }

  // ---- Powers of two ----

  function Pow2(n: nat): (r: nat)
    ensures r >= 1
  {
    if n == 0 then 1 else 2 * Pow2(n - 1)
  }

  lemma {:induction false} Pow2Add(m: nat, n: nat)
    ensures Pow2(m + n) == Pow2(m) * Pow2(n)
    decreases m
  {
    if m > 0 {
      Pow2Add(m - 1, n);
      Associate(2, Pow2(m - 1), Pow2(n));
    }
  }

  lemma {:induction false} Pow2Monotone(m: nat, n: nat)
    requires m <= n
    ensures Pow2(m) <= Pow2(n)
    ensures m < n ==> 2 * Pow2(m) <= Pow2(n)
    decreases n
  {
    if m < n {
      Pow2Monotone(m, n - 1);
    }
  }

  lemma Pow2Eight()
    ensures Pow2(0) == 1 && Pow2(1) == 2 && Pow2(2) == 4 && Pow2(3) == 8 && Pow2(4) == 16
    ensures Pow2(5) == 32 && Pow2(6) == 64 && Pow2(7) == 128 && Pow2(8) == 256
  {
    assert Pow2(3) == 8;
    assert Pow2(6) == 64;
  }

  lemma Pow2Words()
    ensures Pow2(16) == 0x1_0000 && Pow2(32) == 0x1_0000_0000 && Pow2(64) == 0x1_0000_0000_0000_0000
  {
    Pow2Eight();
    Pow2Add(8, 8);
    Pow2Add(16, 16);
    Pow2Add(32, 32);
  }

  // A multiple of 2^n is a multiple of every smaller power of two.
  lemma MultipleOfSmaller(x: nat, m: nat, n: nat)
    requires m <= n && x % Pow2(n) == 0
    ensures x % Pow2(m) == 0
  {
    Pow2Add(n - m, m);
    MultipleOfFactor(x, Pow2(n - m), Pow2(m));
  }

  /** Of two aligned blocks that share a point, the smaller lies inside the larger. */
  lemma BlocksNest(s: nat, m: nat, t: nat, n: nat, x: nat)
    requires m <= n && s % Pow2(m) == 0 && t % Pow2(n) == 0
    requires s <= x < s + Pow2(m) && t <= x < t + Pow2(n)
    ensures t <= s && s + Pow2(m) <= t + Pow2(n)
  {
    MultipleOfSmaller(t, m, n);
    Pow2Add(n - m, m);
    MultipleIntro(Pow2(n - m), Pow2(m));
    MultipleSum(t, Pow2(n), Pow2(m));
    if s < t {
      MultiplesApart(s, t, Pow2(m));
    }
    if s < t + Pow2(n) {
      MultiplesApart(s, t + Pow2(n), Pow2(m));
    }
  }
}
