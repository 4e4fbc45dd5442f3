/** Powers of two and bit masks over unsigned integers, as used by the probing code of the hash map. */
module Bits {

  /** The largest value of a 64-bit `size_t`. */
  const SIZE_MAX: nat := 0xFFFF_FFFF_FFFF_FFFF

  function Pow2(k: nat): (p: nat)
    ensures p >= 1
  {
    if k == 0 then 1 else 2 * Pow2(k - 1)
  }

  ghost predicate IsPow2(n: nat)
    ensures IsPow2(n) ==> n > 0
  {
    exists k: nat :: n == Pow2(k)
  }

  /** Bitwise AND of two unsigned integers, bit by bit from the least significant one. */
  function And(x: nat, y: nat): nat {
    if x == 0 || y == 0 then 0 else 2 * And(x / 2, y / 2) + (x % 2) * (y % 2)
  }

  lemma SplitLowBit(x: nat, m: nat)
    requires m > 0
    ensures x % (2 * m) == 2 * ((x / 2) % m) + x % 2
  {
    var h, b := x / 2, x % 2;
    var q, r := h / m, h % m;
    assert x == 2 * h + b && h == m * q + r;
    assert x == (2 * m) * q + (2 * r + b) by {
      assert 2 * (m * q) == (2 * m) * q;
    }
    ModuloUnique(x, 2 * m, q, 2 * r + b);
  }

  lemma ModuloUnique(x: nat, m: nat, q: int, r: nat)
    requires r < m && x == m * q + r
    ensures x % m == r && x / m == q
  {
    var d := x / m - q;
    assert m * d == r - x % m by {
      assert x == m * (x / m) + x % m;
      assert m * d == m * (x / m) - m * q;
    }
  }

  lemma AndOdd(x: nat, h: nat)
    ensures And(x, 2 * h + 1) == 2 * And(x / 2, h) + x % 2
  {
    var y := 2 * h + 1;
    assert y / 2 == h && y % 2 == 1;
    assert (x % 2) * (y % 2) == x % 2;
  }

  /** Masking with one less than a power of two is reduction modulo that power. */
  lemma {:induction false} MaskIsModulo(x: nat, k: nat)
    ensures And(x, Pow2(k) - 1) == x % Pow2(k)
  {
    if k > 0 {
      var m := Pow2(k - 1);
      calc {
        And(x, Pow2(k) - 1);
        And(x, 2 * (m - 1) + 1);
        { AndOdd(x, m - 1); }
        2 * And(x / 2, m - 1) + x % 2;
        { MaskIsModulo(x / 2, k - 1); }
        2 * ((x / 2) % m) + x % 2;
        { SplitLowBit(x, m); }
        x % (2 * m);
      }
    }
  }

  lemma PowerMaskIsModulo(x: nat, n: nat)
    requires IsPow2(n)
    ensures And(x, n - 1) == x % n
  {
    var k: nat :| n == Pow2(k);
    MaskIsModulo(x, k);
  }

  lemma {:induction false} Pow2Monotone(a: nat, b: nat)
    requires a <= b
    ensures Pow2(a) <= Pow2(b)
  {
    if a < b {
      Pow2Monotone(a, b - 1);
    }
  }

  lemma Pow2Of63()
    ensures Pow2(63) == SIZE_MAX / 2 + 1
  {
    assert Pow2(8) == 0x100;
    assert Pow2(16) == 0x1_0000;
    assert Pow2(24) == 0x100_0000;
    assert Pow2(32) == 0x1_0000_0000;
    assert Pow2(40) == 0x100_0000_0000;
    assert Pow2(48) == 0x1_0000_0000_0000;
    assert Pow2(56) == 0x100_0000_0000_0000;
  }

  /** Rounds a capacity up to the least power of two that is no smaller; never exceeds 2^63, so doubling cannot wrap. */
  method GetRealCapacity(capacity: nat) returns (realCapacity: nat)
    requires capacity <= SIZE_MAX / 2 + 1
    ensures capacity == 0 ==> realCapacity == 0
    ensures capacity > 0 ==> IsPow2(realCapacity) && capacity <= realCapacity <= SIZE_MAX / 2 + 1
    ensures capacity > 0 ==> forall k: nat :: capacity <= Pow2(k) ==> realCapacity <= Pow2(k)
  {
    if capacity == 0 {
      return 0;
    }
    realCapacity := 1;
    ghost var e := 0;
    Pow2Of63();
    while realCapacity < capacity
      invariant realCapacity == Pow2(e) <= SIZE_MAX / 2 + 1
      invariant forall k: nat :: capacity <= Pow2(k) ==> realCapacity <= Pow2(k)
      decreases capacity - realCapacity
    {
      forall k: nat | capacity <= Pow2(k)
        ensures Pow2(e + 1) <= Pow2(k)
      {
        if k <= e {
          Pow2Monotone(k, e);
        }
        Pow2Monotone(e + 1, k);
      }
      assert capacity <= Pow2(63);
      realCapacity := realCapacity * 2;
      e := e + 1;
    }
  }
}
