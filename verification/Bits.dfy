/**
 Masks and shifts of machine words, as functions on the numbers the words denote.

 `And` and `Or` work bit by bit; the lemmas give the arithmetic meaning of the mask shapes
 that the linker uses: low masks, alignment masks, shifted fields and disjoint unions.
 */
module Bits {

  function Pow2(k: nat): (p: nat)
    ensures p >= 1
  {
    if k == 0 then 1 else 2 * Pow2(k - 1)
  }

  const U64: nat := 0x1_0000_0000_0000_0000

  function And(x: nat, y: nat): (r: nat)
  {
    if x == 0 || y == 0 then 0
    else 2 * And(x / 2, y / 2) + (if x % 2 == 1 && y % 2 == 1 then 1 else 0)
  }

  function Or(x: nat, y: nat): (r: nat)
  {
    if x == 0 then y
    else if y == 0 then x
    else 2 * Or(x / 2, y / 2) + (if x % 2 == 1 || y % 2 == 1 then 1 else 0)
  }

  /** `x << k` on a u64: the bits that leave the word are lost. */
  function Shl64(x: nat, k: nat): (r: nat)
    ensures r < U64
  {
    x * Pow2(k) % U64
  }

  function Shr(x: nat, k: nat): (r: nat)
    decreases k
  {
    if k == 0 then x else Shr(x / 2, k - 1)
  }

  /** Two adjacent fields: `low` in the lowest `bits` bits, `high` above it. */
  function Join(low: nat, bits: nat, high: nat): nat {
    low + Pow2(bits) * high
  }

  ghost predicate IsPow2(a: nat) {
    exists k: nat :: Pow2(k) == a
  }

  lemma IsPow2Doubled(a: nat)
    ensures IsPow2(1) && (IsPow2(a) ==> IsPow2(2 * a))
  {
    assert Pow2(0) == 1;
    if k: nat :| Pow2(k) == a {
      assert Pow2(k + 1) == 2 * a;
    }
  }

  lemma MulAtLeast(d: int, k: int)
    requires d > 0
    ensures k >= 1 ==> d * k >= d
    ensures k <= -1 ==> d * k <= -d
  {}

  lemma DivModUnique(x: int, d: int, q: int, r: int)
    requires 0 <= r < d
    requires x == d * q + r
    ensures x / d == q && x % d == r
  {
    MulAtLeast(d, x / d - q);
    assert d * (x / d - q) == d * (x / d) - d * q;
  }

  lemma Assoc(a: int, b: int, c: int)
    ensures a * (b * c) == a * b * c
  {}

  lemma Commute(x: int, y: int)
    ensures x * y == y * x
  {}

  lemma MulMonotone(p: nat, a: int, b: int)
    requires a <= b
    ensures p * a <= p * b
  {}

  lemma RoomBelow(low: nat, r: nat, p: nat, m: nat)
    requires low < p && r < m
    ensures low + p * r < p * m
  {
    MulMonotone(p, r + 1, m);
  }

  lemma Distribute(p: int, a: int, b: int)
    ensures p * (a + b) == p * a + p * b
  {}

  lemma Pow2Step(k: nat)
    ensures Pow2(0) == 1 && (k > 0 ==> Pow2(k) == 2 * Pow2(k - 1))
  {}

  lemma {:induction false} Pow2Add(a: nat, b: nat)
    ensures Pow2(a + b) == Pow2(a) * Pow2(b)
  {
    hide Pow2;
    Pow2Step(a);
    if a > 0 {
      Pow2Add(a - 1, b);
      Pow2Step(a + b);
      Assoc(2, Pow2(a - 1), Pow2(b));
    }
  }

  lemma Pow2Small()
    ensures Pow2(0) == 1 && Pow2(2) == 4 && Pow2(3) == 8 && Pow2(4) == 16 && Pow2(7) == 128 && Pow2(8) == 256
          && Pow2(9) == 512
  {
    assert Pow2(2) == 4;
    Pow2Add(2, 1);
    Pow2Add(2, 2);
    Pow2Add(4, 3);
    Pow2Add(4, 4);
    Pow2Add(8, 1);
  }

  lemma Pow2Words()
    ensures Pow2(16) == 0x1_0000 && Pow2(32) == 0x1_0000_0000 && Pow2(64) == U64
  {
    hide Pow2;
    Pow2Small();
    Pow2Add(8, 8);
    Pow2Add(16, 16);
    Pow2Add(32, 32);
  }

  lemma Pow2Constants()
    ensures Pow2(2) == 4 && Pow2(3) == 8 && Pow2(4) == 16 && Pow2(7) == 128 && Pow2(8) == 256
    ensures Pow2(9) == 512 && Pow2(16) == 0x1_0000 && Pow2(32) == 0x1_0000_0000 && Pow2(64) == U64
  {
    Pow2Small();
    Pow2Words();
  }

  lemma {:induction false} Pow2Monotone(a: nat, b: nat)
    requires a <= b
    ensures Pow2(a) <= Pow2(b)
    ensures a < b ==> 2 * Pow2(a) <= Pow2(b)
    decreases b - a
  {
    if a < b {
      Pow2Monotone(a + 1, b);
    }
  }

  /** The residue of `x` modulo `2 * m` is the residue of its upper bits, and its lowest bit. */
  lemma ModDouble(x: nat, m: nat)
    requires m > 0
    ensures x % (2 * m) == 2 * (x / 2 % m) + x % 2
  {
    var q, r := x / 2 / m, x / 2 % m;
    assert x / 2 == m * q + r;
    assert x == 2 * m * q + (2 * r + x % 2) by {
      assert 2 * (m * q) == 2 * m * q;
    }
    DivModUnique(x, 2 * m, q, 2 * r + x % 2);
  }

  /** One bit of a mask: `m` ones below the mask `2 * m + 1`. */
  lemma AndOdd(x: nat, m: nat)
    ensures And(x, 2 * m + 1) == 2 * And(x / 2, m) + x % 2
  {
    assert (2 * m + 1) / 2 == m;
  }

  lemma AndEven(x: nat, m: nat)
    ensures And(x, 2 * m) == 2 * And(x / 2, m)
  {
    assert 2 * m / 2 == m;
  }

  lemma ModEdges(x: nat, d: nat)
    requires d > 0
    ensures 0 % d == 0 && x % 1 == 0
    ensures x < d ==> x % d == x
  {}

  /** Masking with `k` low ones keeps the residue modulo two to the `k`. */
  lemma {:induction false} AndLowMask(x: nat, k: nat)
    ensures And(x, Pow2(k) - 1) == x % Pow2(k)
  {
    if x == 0 || k == 0 {
      ModEdges(x, Pow2(k));
    } else {
      var p := Pow2(k - 1);
      AndLowMask(x / 2, k - 1);
      ModDouble(x, p);
      assert Pow2(k) - 1 == 2 * (p - 1) + 1;
      AndOdd(x, p - 1);
    }
  }

  lemma HighMaskStep(x: nat, p: nat, q: nat)
    requires 0 < p <= q
    requires And(x / 2, q - p) == x / 2 - x / 2 % p
    ensures And(x, 2 * (q - p)) == x - x % (2 * p)
  {
    AndEven(x, q - p);
    ModDouble(x, p);
  }

  /** Masking an `n`-bit word with ones above bit `k` clears the low `k` bits. */
  lemma {:induction false} AndHighMask(x: nat, k: nat, n: nat)
    requires k <= n && x < Pow2(n)
    ensures Pow2(k) <= Pow2(n) && And(x, Pow2(n) - Pow2(k)) == x - x % Pow2(k)
  {
    hide Pow2, And;
    Pow2Monotone(k, n);
    Pow2Step(k);
    Pow2Step(n);
    if k == 0 {
      AndLowMask(x, n);
      ModEdges(x, Pow2(n));
    } else {
      HalfBelow(x, Pow2(n - 1));
      AndHighMask(x / 2, k - 1, n - 1);
      HighMaskStep(x, Pow2(k - 1), Pow2(n - 1));
    }
  }

  lemma HalfBelow(x: nat, p: nat)
    ensures x < 2 * p ==> x / 2 < p
  {}

  lemma HalfJoined(low: nat, p: nat, high: nat)
    ensures (low + 2 * p * high) / 2 == low / 2 + p * high
  {
    Assoc(2, p, high);
  }

  lemma {:induction false} ShrMeaning(low: nat, high: nat, lo: nat)
    requires low < Pow2(lo)
    ensures Shr(Join(low, lo, high), lo) == high
  {
    hide Pow2;
    Pow2Step(lo);
    if lo > 0 {
      HalfJoined(low, Pow2(lo - 1), high);
      HalfBelow(low, Pow2(lo - 1));
      ShrMeaning(low / 2, high, lo - 1);
    } else {
      assert Join(low, 0, high) == high;
    }
  }

  lemma OrEven(low: nat, high: nat)
    ensures Or(low, 2 * high) == 2 * Or(low / 2, high) + low % 2
  {
    assert 2 * high / 2 == high;
  }

  /** The union of words that share no bit is their sum. */
  lemma {:induction false} OrDisjoint(low: nat, high: nat, k: nat)
    requires low < Pow2(k)
    ensures Or(low, Pow2(k) * high) == low + Pow2(k) * high
  {
    hide Pow2;
    Pow2Step(k);
    if k > 0 {
      var rest := Pow2(k - 1) * high;
      Assoc(2, Pow2(k - 1), high);
      HalfBelow(low, Pow2(k - 1));
      OrEven(low, rest);
      OrDisjoint(low / 2, high, k - 1);
    }
  }
}
