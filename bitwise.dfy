/**
  numpy's `bitwise_or` on integers, and the `.astype(int)` cast that precedes
  it in the drug-pair combiner. Integers are two's complement of unbounded
  width: bit k of x is bit 0 of x shifted right (floor-divided by 2) k times,
  so a negative number has infinitely many 1 bits, and NOT x is -x - 1.
 */
module Bitwise {

  /** Bit `k` of `x` in two's complement (Dafny's `/` and `%` by 2 are the floor shift and the low bit). */
  predicate Bit(x: int, k: nat)
    decreases k
  {
    if k == 0 then x % 2 == 1 else Bit(x / 2, k - 1)
  }

  function OrNat(a: nat, b: nat): nat {
    if a == 0 then b
    else if b == 0 then a
    else 2 * OrNat(a / 2, b / 2) + (if a % 2 == 1 || b % 2 == 1 then 1 else 0)
  }

  function AndNat(a: nat, b: nat): nat {
    if a == 0 || b == 0 then 0
    else 2 * AndNat(a / 2, b / 2) + (if a % 2 == 1 && b % 2 == 1 then 1 else 0)
  }

  /** `a & ~b` on natural numbers. */
  function AndNotNat(a: nat, b: nat): nat {
    if a == 0 then 0
    else if b == 0 then a
    else 2 * AndNotNat(a / 2, b / 2) + (if a % 2 == 1 && b % 2 == 0 then 1 else 0)
  }

  /** `np.bitwise_or(a, b)`, with `a | b == ~(~a & ~b)` when an operand is negative. */
  function BitOr(a: int, b: int): (r: int)
    ensures r < 0 <==> a < 0 || b < 0
  {
    if a >= 0 && b >= 0 then OrNat(a, b)
    else if a < 0 && b < 0 then -(AndNat(-a - 1, -b - 1) as int) - 1
    else if a < 0 then -(AndNotNat(-a - 1, b) as int) - 1
    else -(AndNotNat(-b - 1, a) as int) - 1
  }

  /** `.astype(int)` on a real: truncation toward zero. */
  function Truncate(x: real): (n: int)
    ensures 0.0 <= x ==> n as real <= x < n as real + 1.0
    ensures x < 0.0 ==> n as real - 1.0 < x <= n as real
  {
    if x >= 0.0 then x.Floor else -((-x).Floor)
  }

  // ---------------------------------------------------------------------
  // Bit-level meaning

  lemma {:induction false} ZeroBits(k: nat)
    ensures !Bit(0, k)
  {
    if k > 0 {
      ZeroBits(k - 1);
    }
  }

  /** NOT: the bits of -x - 1 are those of x, flipped. */
  lemma {:induction false} ComplementBits(x: int, k: nat)
    ensures Bit(-x - 1, k) == !Bit(x, k)
    decreases k
  {
    var q, r := x / 2, x % 2;
    assert x == 2 * q + r && (r == 0 || r == 1);
    assert -x - 1 == 2 * (-q - 1) + (1 - r);
    assert (-x - 1) / 2 == -q - 1 && (-x - 1) % 2 == 1 - r;
    if k > 0 {
      ComplementBits(q, k - 1);
    }
  }

  lemma {:induction false} OrNatBits(a: nat, b: nat, k: nat)
    ensures Bit(OrNat(a, b), k) == (Bit(a, k) || Bit(b, k))
  {
    if a == 0 {
      ZeroBits(k);
    } else if b == 0 {
      ZeroBits(k);
    } else {
      var c := if a % 2 == 1 || b % 2 == 1 then 1 else 0;
      var r := OrNat(a, b);
      assert r == 2 * OrNat(a / 2, b / 2) + c;
      assert r / 2 == OrNat(a / 2, b / 2) && r % 2 == c;
      if k > 0 {
        OrNatBits(a / 2, b / 2, k - 1);
      }
    }
  }

  lemma {:induction false} AndNatBits(a: nat, b: nat, k: nat)
    ensures Bit(AndNat(a, b), k) == (Bit(a, k) && Bit(b, k))
  {
    if a == 0 || b == 0 {
      ZeroBits(k);
    } else {
      var c := if a % 2 == 1 && b % 2 == 1 then 1 else 0;
      var r := AndNat(a, b);
      assert r == 2 * AndNat(a / 2, b / 2) + c;
      assert r / 2 == AndNat(a / 2, b / 2) && r % 2 == c;
      if k > 0 {
        AndNatBits(a / 2, b / 2, k - 1);
      }
    }
  }

  lemma {:induction false} AndNotNatBits(a: nat, b: nat, k: nat)
    ensures Bit(AndNotNat(a, b), k) == (Bit(a, k) && !Bit(b, k))
  {
    if a == 0 {
      ZeroBits(k);
    } else if b == 0 {
      ZeroBits(k);
    } else {
      var c := if a % 2 == 1 && b % 2 == 0 then 1 else 0;
      var r := AndNotNat(a, b);
      assert r == 2 * AndNotNat(a / 2, b / 2) + c;
      assert r / 2 == AndNotNat(a / 2, b / 2) && r % 2 == c;
      if k > 0 {
        AndNotNatBits(a / 2, b / 2, k - 1);
      }
    }
  }

  /** Both operands negative: `~(~a & ~b)`. */
  lemma BitOrBothNegative(a: int, b: int, k: nat)
    requires a < 0 && b < 0
    ensures Bit(BitOr(a, b), k) == (Bit(a, k) || Bit(b, k))
  {
    var x: int := AndNat(-a - 1, -b - 1);
    assert BitOr(a, b) == -x - 1;
    ComplementBits(x, k);
    AndNatBits(-a - 1, -b - 1, k);
    ComplementBits(a, k);
    ComplementBits(b, k);
  }

  /** Only `a` negative: `~(~a & ~b)` with `~b` the complement, that is `~(~a & ~~b)`. */
  lemma BitOrOneNegative(a: int, b: int, k: nat)
    requires a < 0 && b >= 0
    ensures Bit(BitOr(a, b), k) == (Bit(a, k) || Bit(b, k))
  {
    var x: int := AndNotNat(-a - 1, b);
    assert BitOr(a, b) == -x - 1;
    ComplementBits(x, k);
    AndNotNatBits(-a - 1, b, k);
    ComplementBits(a, k);
  }

  /** Bit k of `a | b` is set exactly when bit k of `a` or of `b` is: the union of the two bit sets. */
  lemma BitOrBits(a: int, b: int, k: nat)
    ensures Bit(BitOr(a, b), k) == (Bit(a, k) || Bit(b, k))
  {
    if a >= 0 && b >= 0 {
      OrNatBits(a, b, k);
    } else if a < 0 && b < 0 {
      BitOrBothNegative(a, b, k);
    } else if a < 0 {
      BitOrOneNegative(a, b, k);
    } else {
      var x: int := AndNotNat(-b - 1, a);
      assert BitOr(a, b) == -x - 1;
      ComplementBits(x, k);
      AndNotNatBits(-b - 1, a, k);
      ComplementBits(b, k);
    }
  }

  /** Two integers with the same bits are equal. */
  lemma {:induction false} SameBitsEqual(x: int, y: int)
    requires forall k: nat :: Bit(x, k) == Bit(y, k)
    ensures x == y
    decreases (if x < 0 then -x else x) + (if y < 0 then -y else y)
  {
    assert Bit(x, 0) == Bit(y, 0);
    if !((x == 0 || x == -1) && (y == 0 || y == -1)) {
      forall k: nat
        ensures Bit(x / 2, k) == Bit(y / 2, k)
      {
        assert Bit(x, k + 1) == Bit(y, k + 1);
      }
      SameBitsEqual(x / 2, y / 2);
    }
  }

  /** Combining is symmetric: `a | b == b | a`. */
  lemma BitOrCommutative(a: int, b: int)
    ensures BitOr(a, b) == BitOr(b, a)
  {
    forall k: nat
      ensures Bit(BitOr(a, b), k) == Bit(BitOr(b, a), k)
    {
      BitOrBits(a, b, k);
      BitOrBits(b, a, k);
    }
    SameBitsEqual(BitOr(a, b), BitOr(b, a));
  }

  /** Combining a value with itself gives it back: `a | a == a`. */
  lemma BitOrIdempotent(a: int)
    ensures BitOr(a, a) == a
  {
    forall k: nat
      ensures Bit(BitOr(a, a), k) == Bit(a, k)
    {
      BitOrBits(a, a, k);
    }
    SameBitsEqual(BitOr(a, a), a);
  }

  /** On 0/1 values `bitwise_or` is logical OR, so 0/1 inputs give a 0/1 result. */
  lemma BitOrOnFlags(a: int, b: int)
    requires (a == 0 || a == 1) && (b == 0 || b == 1)
    ensures BitOr(a, b) == if a == 1 || b == 1 then 1 else 0
  {
  }
}
