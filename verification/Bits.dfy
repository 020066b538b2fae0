/**
  Single bits of unsigned numbers.
 */
module Bits {

  /** `1 << k` */
  function Mask(k: nat): (m: nat) {
    if k == 0 then 1 else 2 * Mask(k - 1)
  }

  /** `x & (1 << k)` is not zero. */
  predicate Bit(x: nat, k: nat) {
    if k == 0 then x % 2 == 1 else Bit(x / 2, k - 1)
  }

  /** `x | (1 << k)`, for a clear bit. */
  function WithBit(x: nat, k: nat): (y: nat)
    requires !Bit(x, k)
    ensures y == x + Mask(k)
  {
    if k == 0 then x + 1 else 2 * WithBit(x / 2, k - 1) + x % 2
  }

  /** `x & ~(1 << k)`, for a set bit. */
  function WithoutBit(x: nat, k: nat): (y: nat)
    requires Bit(x, k)
    ensures y == x - Mask(k)
  {
    if k == 0 then x - 1 else 2 * WithoutBit(x / 2, k - 1) + x % 2
  }

  lemma {:induction false} BitsAfterSet(x: nat, k: nat, j: nat)
    requires !Bit(x, k)
    ensures Bit(WithBit(x, k), j) <==> j == k || Bit(x, j)
  {
    if k > 0 && j > 0 {
      BitsAfterSet(x / 2, k - 1, j - 1);
    }
  }

  lemma {:induction false} BitsAfterClear(x: nat, k: nat, j: nat)
    requires Bit(x, k)
    ensures Bit(WithoutBit(x, k), j) <==> j != k && Bit(x, j)
  {
    if k > 0 && j > 0 {
      BitsAfterClear(x / 2, k - 1, j - 1);
    }
  }

  /** Setting a clear bit of an n-bit number stays within n bits. */
  lemma {:induction false} SetStaysInRange(x: nat, k: nat, n: nat)
    requires k < n && x < Mask(n) && !Bit(x, k)
    ensures WithBit(x, k) < Mask(n)
  {
    assert Mask(n) == 2 * Mask(n - 1);
    if k == 0 {
      assert WithBit(x, k) == x + 1 && x % 2 == 0;
    } else {
      assert !Bit(x / 2, k - 1) && WithBit(x, k) == 2 * WithBit(x / 2, k - 1) + x % 2;
      hide Bit, WithBit, Mask;
      SetStaysInRange(x / 2, k - 1, n - 1);
    }
  }

  lemma EightBits()
    ensures Mask(8) == 256
  {
    assert Mask(4) == 16;
  }

  /** `x | y` */
  function Or(x: nat, y: nat): nat {
    if x == 0 then y else 2 * Or(x / 2, y / 2) + if x % 2 == 1 || y % 2 == 1 then 1 else 0
  }

  lemma {:induction false} OrBound(x: nat, y: nat, k: nat)
    requires x < Mask(k) && y < Mask(k)
    ensures Or(x, y) < Mask(k)
  {
    if x > 0 {
      OrBound(x / 2, y / 2, k - 1);
    }
  }

  /** `|` bit by bit. */
  lemma {:induction false} OrBits(x: nat, y: nat, k: nat)
    ensures Bit(Or(x, y), k) <==> Bit(x, k) || Bit(y, k)
    decreases k
  {
    assert Or(x, y) / 2 == Or(x / 2, y / 2);
    if k > 0 {
      OrBits(x / 2, y / 2, k - 1);
    }
  }

  /** The low `n` bits of a number. */
  lemma {:induction false} BitsBelow(q: nat, r: nat, n: nat, k: nat)
    requires k < n
    ensures Bit(Mask(n) * q + r, k) <==> Bit(r, k)
    decreases k
  {
    var u := Mask(n - 1) * q;
    Times(Mask(n - 1), q);
    Halves(Mask(n) * q + r, u, r);
    if k > 0 {
      BitsBelow(q, r / 2, n - 1, k - 1);
    }
  }

  lemma Times(m: nat, q: nat)
    ensures 2 * m * q == 2 * (m * q)
  {
  }

  lemma Halves(x: nat, u: nat, r: nat)
    requires x == 2 * u + r
    ensures x / 2 == u + r / 2 && x % 2 == r % 2
  {
  }

  lemma {:induction false} NoBits(k: nat)
    ensures !Bit(0, k)
  {
    if k > 0 {
      NoBits(k - 1);
    }
  }

  /** Bit `k` of a byte counts 2^k. */
  lemma BitIs(x: nat, k: nat)
    requires k < 8
    ensures Bit(x, k) <==> x / [1, 2, 4, 8, 16, 32, 64, 128][k] % 2 == 1
  {
    hide Bit;
    var y := x / 2 / 2;
    var z := y / 2 / 2;
    HalfBit(x, k);
    HalfBit(x / 2, k - 1);
    HalfBit(y, k - 2);
    HalfBit(y / 2, k - 3);
    HalfBit(z, k - 4);
    HalfBit(z / 2, k - 5);
    HalfBit(z / 2 / 2, k - 6);
    HalfBit(z / 2 / 2 / 2, k - 7);
    assert y == x / 4 && y / 2 == x / 8 && z == x / 16 && z / 2 == x / 32 && z / 2 / 2 == x / 64 && z / 2 / 2 / 2 == x / 128;
  }

  lemma HalfBit(x: nat, k: int)
    ensures k > 0 ==> (Bit(x, k) <==> Bit(x / 2, k - 1))
    ensures k == 0 ==> (Bit(x, k) <==> x % 2 == 1)
  {
  }
}
