/** Small facts about products, quotients and remainders with a variable divisor. */
module Arith {
  lemma Dist(a: int, b: int, k: int)
    ensures (a + b) * k == a * k + b * k
  {
  }

  lemma NonNeg(a: nat, k: nat)
    ensures a * k >= 0
  {
  }

  /** q groups of k plus a remainder stay below n groups when q < n. */
  lemma Scale(q: nat, r: nat, n: nat, k: nat)
    requires q < n && r < k
    ensures 0 <= q * k <= q * k + r < q * k + k <= n * k
  {
    Dist(q, n - q, k);
    Dist(1, n - q - 1, k);
    NonNeg(n - q - 1, k);
    NonNeg(q, k);
  }

  /** A quotient and remainder determine their number, and the number them. */
  lemma Apart(q0: int, r0: int, q1: int, r1: int, k: nat)
    requires 0 <= r0 < k && 0 <= r1 < k
    requires q0 != q1 || r0 != r1
    ensures q0 * k + r0 != q1 * k + r1
  {
    if q0 != q1 {
      var lo, hi := if q0 < q1 then q0 else q1, if q0 < q1 then q1 else q0;
      Dist(lo, hi - lo, k);
      Dist(1, hi - lo - 1, k);
      NonNeg(hi - lo - 1, k);
    }
  }

  /** Quotient and remainder under names a proof can hide. */
  function Quot(i: nat, k: nat): nat
    requires k > 0
  {
    i / k
  }

  function Rem(i: nat, k: nat): nat
    requires k > 0
  {
    i % k
  }

  lemma DivMod(i: nat, k: nat)
    requires k > 0
    ensures i == Quot(i, k) * k + Rem(i, k)
    ensures Rem(i, k) < k
  {
  }

  lemma DivUnique(i: nat, q: nat, r: nat, k: nat)
    requires r < k && i == q * k + r
    ensures Quot(i, k) == q && Rem(i, k) == r
  {
    DivMod(i, k);
    if Quot(i, k) != q || Rem(i, k) != r {
      Apart(Quot(i, k), Rem(i, k), q, r, k);
    }
  }

  lemma DivBelow(i: nat, n: nat, k: nat)
    requires k > 0 && i < n * k
    ensures Quot(i, k) < n
  {
    DivMod(i, k);
    if Quot(i, k) >= n {
      NonNeg(Quot(i, k) - n, k);
      Dist(n, Quot(i, k) - n, k);
    }
  }

  lemma QuotGrows(i: nat, j: nat, k: nat)
    requires k > 0 && i <= j
    ensures Quot(0, k) == 0 && Quot(i, k) <= Quot(j, k)
  {
    DivUnique(0, 0, 0, k);
    DivMod(i, k);
    DivMod(j, k);
    if Quot(j, k) < Quot(i, k) { Scale(Quot(j, k), Rem(j, k), Quot(i, k), k); }
  }

  lemma NoneBetween(q: int, n: nat)
    ensures !(0 < q * n < n)
  {
    if q >= 1 {
      NonNeg(q - 1, n);
      Dist(q - 1, 1, n);
    } else {
      NonNeg(-q, n);
      Dist(q, -q, n);
    }
  }

  lemma SamePlace(i: nat, j: nat, k: nat)
    requires k > 0 && Quot(i, k) == Quot(j, k) && Rem(i, k) == Rem(j, k)
    ensures i == j
  {
    DivMod(i, k);
    DivMod(j, k);
  }

  /** Counting on from any start, n steps meet every remainder modulo n. */
  lemma Rotation(start: nat, n: nat, x: nat) returns (j: nat)
    requires x < n
    ensures j < n && Rem(start + j, n) == x
  {
    var q := (x - start) / n;
    j := (x - start) % n;
    assert x - start == q * n + j;
    assert -q * n == -(q * n);
    if q > 0 {
      NonNeg(q - 1, n);
      Dist(q - 1, 1, n);
    }
    DivUnique(start + j, -q, x, n);
  }
}
