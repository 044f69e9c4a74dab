/**
 Unsigned bit arithmetic on natural numbers: the C operators that the codecs of
 dag/bytearray.cpp use, defined bit by bit, and the arithmetic they amount to.
 */
module Bits {

  type Byte = b: int | 0 <= b < 256

  function Pow2(k: nat): (p: nat)
    ensures p >= 1
  {
    if k == 0 then 1 else 2 * Pow2(k - 1)
  }

  /** The C operator & on unsigned operands. */
  function And(a: nat, b: nat): nat
    decreases a
  {
    if a == 0 then 0
    else 2 * And(a / 2, b / 2) + (if a % 2 == 1 && b % 2 == 1 then 1 else 0)
  }

  /** The C operator | on unsigned operands. */
  function Or(a: nat, b: nat): nat
    decreases a + b
  {
    if a == 0 && b == 0 then 0
    else 2 * Or(a / 2, b / 2) + (if a % 2 == 1 || b % 2 == 1 then 1 else 0)
  }

  /** The C operator ^ on unsigned operands. */
  function Xor(a: nat, b: nat): nat
    decreases a + b
  {
    if a == 0 && b == 0 then 0
    else 2 * Xor(a / 2, b / 2) + (if a % 2 != b % 2 then 1 else 0)
  }

  /** Left shift of a width-bit unsigned value: the bits shifted out are lost. */
  function Shl(a: nat, k: nat, width: nat): nat
    decreases k
  {
    if k == 0 then a % Pow2(width) else Shl(2 * a, k - 1, width)
  }

  /** Right shift of an unsigned value. */
  function Shr(a: nat, k: nat): nat
    decreases k
  {
    if k == 0 then a else Shr(a / 2, k - 1)
  }

  /** The cast of a signed value to a width-bit unsigned type. */
  function ToUnsigned(v: int, width: nat): nat {
    v % Pow2(width)
  }

  /** The cast of a width-bit unsigned value to the signed type of that width. */
  function ToSigned(u: nat, width: nat): int
    requires width >= 1
  {
    if u < Pow2(width - 1) then u else u - Pow2(width)
  }

  predicate IsSigned(v: int, width: nat)
    requires width >= 1
  {
    0 <= v + Pow2(width - 1) && v < Pow2(width - 1)
  }

  lemma ModSmall(a: nat, m: nat)
    requires a < m
    ensures a % m == a
  {
  }

  lemma {:induction false} Pow2Sum(j: nat, k: nat)
    ensures Pow2(j + k) == Pow2(j) * Pow2(k)
  {
    if j > 0 {
      Pow2Sum(j - 1, k);
      assert Pow2(j + k) == 2 * Pow2(j - 1 + k);
      assert Pow2(j) == 2 * Pow2(j - 1);
    }
  }

  lemma {:induction false} Pow2Monotone(j: nat, k: nat)
    requires j <= k
    ensures Pow2(j) <= Pow2(k)
    decreases k - j
  {
    if j < k {
      Pow2Monotone(j, k - 1);
    }
  }

  /** Masking with k one-bits is the remainder modulo 2 to the k. */
  lemma {:induction false} AndMask(a: nat, k: nat)
    ensures And(a, Pow2(k) - 1) == a % Pow2(k)
    decreases k
  {
    if k == 0 {
      AndZero(a);
      DivModUnique(a, 1, a, 0);
    } else {
      var m := Pow2(k - 1);
      calc {
        And(a, 2 * m - 1);
        { AndOddMask(a, m); }
        2 * And(a / 2, m - 1) + a % 2;
        { AndMask(a / 2, k - 1); }
        2 * ((a / 2) % m) + a % 2;
        { HalveMod(a, m); }
        a % (2 * m);
      }
    }
  }

  lemma AndOddMask(a: nat, m: nat)
    requires m >= 1
    ensures And(a, 2 * m - 1) == 2 * And(a / 2, m - 1) + a % 2
  {
    assert (2 * m - 1) / 2 == m - 1 && (2 * m - 1) % 2 == 1;
  }

  lemma {:induction false} AndZero(a: nat)
    ensures And(a, 0) == 0
  {
    if a > 0 {
      AndZero(a / 2);
    }
  }

  lemma HalveMod(a: nat, m: nat)
    requires m >= 1
    ensures a % (2 * m) == 2 * ((a / 2) % m) + a % 2
  {
    var q, r := (a / 2) / m, (a / 2) % m;
    assert a / 2 == q * m + r;
    assert a == (2 * m) * q + (2 * r + a % 2);
    DivModUnique(a, 2 * m, q, 2 * r + a % 2);
  }

  lemma {:induction false} ShlIsProduct(a: nat, k: nat, width: nat)
    ensures Shl(a, k, width) == (a * Pow2(k)) % Pow2(width)
    decreases k
  {
    if k > 0 {
      ShlIsProduct(2 * a, k - 1, width);
      assert (2 * a) * Pow2(k - 1) == a * Pow2(k);
    }
  }

  lemma MulAtLeast(d: int, n: int)
    requires d >= 1 && n >= 1
    ensures d * n >= d
  {
  }

  lemma MulMonotone(b: nat, x: nat, y: nat)
    requires x <= y
    ensures b * x <= b * y
  {
  }

  lemma DivModUnique(a: int, d: int, q: int, r: int)
    requires d >= 1
    requires a == d * q + r
    requires 0 <= r < d
    ensures a / d == q
    ensures a % d == r
  {
    var p := a / d;
    assert a == d * p + a % d;
    assert d * (q - p) == d * q - d * p;
    if q > p {
      MulAtLeast(d, q - p);
    } else if q < p {
      assert d * (p - q) == d * p - d * q;
      MulAtLeast(d, p - q);
    }
  }

  lemma DivDiv(a: int, b: nat, c: nat)
    requires b >= 1 && c >= 1
    ensures b * c >= 1
    ensures (a / b) / c == a / (b * c)
  {
    var q, r := (a / b) / c, (a / b) % c;
    MulAtLeast(b, c);
    assert a == b * (c * q + r) + a % b;
    assert b * (c * q + r) == (b * c) * q + b * r;
    assert 0 <= b * r + a % b < b * c by {
      assert b * r + b == b * (r + 1);
      MulMonotone(b, r + 1, c);
    }
    DivModUnique(a, b * c, q, b * r + a % b);
  }

  /** The eight bits from position k on do not change when a value is cut to more bits than that. */
  lemma ByteOfCut(n: int, k: nat, bits: nat)
    requires k + 8 <= bits
    ensures 0 <= n % Pow2(bits) && (n % Pow2(bits) / Pow2(k)) % 256 == (n / Pow2(k)) % 256
  {
    var m := Pow2(bits - k - 8);
    Pow2Sum(k, bits - k);
    Pow2Sum(8, bits - k - 8);
    assert Pow2(8) == 256;
    ModDiv(n, Pow2(k), 256 * m);
    ModMod(n / Pow2(k), m);
  }

  lemma ModDiv(n: int, p: nat, c: nat)
    requires p >= 1 && c >= 1
    ensures p * c >= 1
    ensures 0 <= n % (p * c) && (n % (p * c)) / p == (n / p) % c
  {
    MulAtLeast(p, c);
    var q, r := n / (p * c), n % (p * c);
    var x, t := r / p, r % p;
    assert n == (p * c) * q + (p * x + t);
    assert (p * c) * q == p * (c * q);
    assert p * (c * q + x) == p * (c * q) + p * x;
    DivModUnique(n, p, c * q + x, t);
    SmallerFactor(p, x, c);
    DivModUnique(n / p, c, q, x);
  }

  lemma SmallerFactor(p: int, x: int, c: int)
    requires p >= 1 && p * x < p * c
    ensures x < c
  {
    assert p * (c - x) > 0;
  }

  lemma ModMod(x: int, m: nat)
    requires m >= 1
    ensures 256 * m >= 1 && (x % (256 * m)) % 256 == x % 256
  {
    var q, r := x / (256 * m), x % (256 * m);
    assert x == 256 * (m * q) + r;
    DivModUnique(x, 256, m * q + r / 256, r % 256);
  }

  /** Bits above position k are added by |, when the other operand lies below it. */
  lemma {:induction false} OrDisjoint(low: nat, high: nat, k: nat)
    requires low < Pow2(k)
    ensures Or(low, high * Pow2(k)) == low + high * Pow2(k)
    decreases k
  {
    var m := high * Pow2(k);
    if k == 0 {
      OrZero(high);
    } else if low == 0 && m == 0 {
    } else {
      assert m == 2 * (high * Pow2(k - 1));
      OrDisjoint(low / 2, high, k - 1);
    }
  }

  lemma {:induction false} OrZero(a: nat)
    ensures Or(0, a) == a
  {
    if a > 0 {
      OrZero(a / 2);
    }
  }

  /** Exclusive or with all ones is the bitwise complement. */
  lemma {:induction false} XorOnes(a: nat, k: nat)
    requires a < Pow2(k)
    ensures Xor(a, Pow2(k) - 1) == Pow2(k) - 1 - a
    decreases k
  {
    if k > 0 {
      var m := Pow2(k - 1);
      assert (2 * m - 1) / 2 == m - 1;
      XorOnes(a / 2, k - 1);
    }
  }

  lemma {:induction false} XorZero(a: nat)
    ensures Xor(a, 0) == a
  {
    if a > 0 {
      XorZero(a / 2);
    }
  }
}
