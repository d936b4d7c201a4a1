/** Definitions shared by the models. */
module Basics {

  datatype Option<+T> = None | Some(value: T)

  type Byte = x: int | 0 <= x < 256

  function Min(a: nat, b: nat): nat { if a < b then a else b }

  function Zeros(n: nat): (z: seq<bool>)
    ensures |z| == n && forall i | 0 <= i < n :: !z[i]
  {
    seq(n, _ => false)
  }

  /** The value of a 32-bit pattern as a signed number; arithmetic of ee_s32 wraps. */
  function Wrap32(x: int): (r: int)
    ensures -0x8000_0000 <= r <= 0x7fff_ffff && (-0x8000_0000 <= x <= 0x7fff_ffff ==> r == x)
  {
    (x + 0x8000_0000) % 0x1_0000_0000 - 0x8000_0000
  }

  /** Bit i of a number. */
  function BitOf(x: nat, i: nat): nat
    decreases i
  {
    if i == 0 then x % 2 else BitOf(x / 2, i - 1)
  }

  /** The number made of the `count` bits from bit `low` on. */
  function Field(x: nat, low: nat, count: nat): nat
    decreases count
  {
    if count == 0 then 0 else BitOf(x, low) + 2 * Field(x, low + 1, count - 1)
  }

  /** The n low bits of the exclusive or, and of the or, of two numbers. */
  function Xor(a: nat, b: nat, n: nat): (r: nat)
    ensures r < Two(n)
    decreases n
  {
    if n == 0 then 0 else (a % 2 + b % 2) % 2 + 2 * Xor(a / 2, b / 2, n - 1)
  }

  function Or(a: nat, b: nat, n: nat): (r: nat)
    ensures r < Two(n)
    decreases n
  {
    if n == 0 then 0 else (if a % 2 == 1 || b % 2 == 1 then 1 else 0) + 2 * Or(a / 2, b / 2, n - 1)
  }

  lemma {:induction false} XorBit(a: nat, b: nat, n: nat, k: nat)
    requires k < n
    ensures BitOf(Xor(a, b, n), k) == if BitOf(a, k) == BitOf(b, k) then 0 else 1
    decreases k
  {
    LowAndRest((a % 2 + b % 2) % 2, Xor(a / 2, b / 2, n - 1));
    if k > 0 {
      XorBit(a / 2, b / 2, n - 1, k - 1);
    }
  }

  lemma {:induction false} OrBit(a: nat, b: nat, n: nat, k: nat)
    requires k < n
    ensures BitOf(Or(a, b, n), k) == if BitOf(a, k) == 1 || BitOf(b, k) == 1 then 1 else 0
    decreases k
  {
    LowAndRest(if a % 2 == 1 || b % 2 == 1 then 1 else 0, Or(a / 2, b / 2, n - 1));
    if k > 0 {
      OrBit(a / 2, b / 2, n - 1, k - 1);
    }
  }

  lemma LowAndRest(low: nat, rest: nat)
    requires low <= 1
    ensures (low + 2 * rest) % 2 == low && (low + 2 * rest) / 2 == rest
  {
  }

  lemma {:induction false} NoBits(n: nat)
    ensures Or(0, 0, n) == 0
    decreases n
  {
    if n > 0 {
      NoBits(n - 1);
    }
  }

  lemma {:induction false} SameBits(a: nat, n: nat)
    ensures Xor(a, a, n) == 0
    decreases n
  {
    if n > 0 {
      SameBits(a / 2, n - 1);
    }
  }

  /** Moved up by some places. */
  lemma {:induction false} BitUp(z: nat, k: nat, places: nat)
    ensures BitOf(z * Two(places), k) == if k < places then 0 else BitOf(z, k - places)
    decreases places
  {
    if places > 0 {
      assert z * Two(places) == 2 * (z * Two(places - 1));
      if k > 0 {
        BitUp(z, k - 1, places - 1);
      }
    }
  }

  lemma {:induction false} BitCut(z: nat, k: nat, n: nat)
    ensures BitOf(z % Two(n), k) == if k < n then BitOf(z, k) else 0
    decreases n
  {
    if n == 0 {
      assert z % 1 == 0;
      ZeroBit(k);
    } else {
      Halved(z, Two(n - 1));
      if k > 0 {
        BitCut(z / 2, k - 1, n - 1);
      }
    }
  }

  lemma {:induction false} ZeroBit(k: nat)
    ensures BitOf(0, k) == 0
    decreases k
  {
    if k > 0 {
      ZeroBit(k - 1);
    }
  }

  function Two(n: nat): (p: nat)
    ensures p > 0
  {
    if n == 0 then 1 else 2 * Two(n - 1)
  }

  lemma Powers()
    ensures Two(1) == 2 && Two(2) == 4 && Two(3) == 8 && Two(4) == 16 && Two(5) == 32 && Two(7) == 128 && Two(8) == 256
    ensures Two(14) == 0x4000
  {
    assert Two(6) == 64;
    assert Two(11) == 2048;
  }

  lemma {:induction false} Monotone(n: nat, p: int, q: int)
    requires p <= q
    ensures p * n <= q * n
  {
    assert q * n - p * n == (q - p) * n;
  }

  lemma QuotientUnique(n: nat, q: int, r: nat, i: int, j: nat)
    requires q * n + r == i * n + j && r < n && j < n
    ensures q == i && r == j
  {
    if q < i {
      Monotone(n, q + 1, i);
    } else if i < q {
      Monotone(n, i + 1, q);
    }
  }

  lemma {:induction false} ShiftedField(x: nat, low: nat, count: nat)
    ensures Field(x, low + 1, count) == Field(x / 2, low, count)
    decreases count
  {
    if count > 0 {
      ShiftedField(x, low + 1, count - 1);
    }
  }

  lemma {:induction false} LowBits(x: nat, n: nat)
    ensures Field(x, 0, n) == x % Two(n)
    decreases n
  {
    if n > 0 {
      LowBits(x / 2, n - 1);
      ShiftedField(x, 0, n - 1);
      Halved(x, Two(n - 1));
    }
  }

  lemma Halved(x: nat, m: nat)
    requires m > 0
    ensures x % (2 * m) == x % 2 + 2 * (x / 2 % m) && x / (2 * m) == x / 2 / m
  {
    var q := x / 2 / m;
    assert x / 2 == q * m + x / 2 % m;
    assert x == q * (2 * m) + (x % 2 + 2 * (x / 2 % m));
    QuotientUnique(2 * m, x / (2 * m), x % (2 * m), q, x % 2 + 2 * (x / 2 % m));
  }

  /** A field is a shift and a mask. */
  lemma {:induction false} FieldIs(x: nat, low: nat, count: nat)
    ensures Field(x, low, count) == x / Two(low) % Two(count)
    decreases low
  {
    if low == 0 {
      LowBits(x, count);
    } else {
      ShiftedField(x, low - 1, count);
      FieldIs(x / 2, low - 1, count);
      Halved(x, Two(low - 1));
    }
  }
}
