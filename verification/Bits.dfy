/** Bitwise operators of unsigned integers, and when they are plain arithmetic. */
module Bits {
  import opened NumberTheory

  datatype Op = XOR | OR | AND

  function OnBits(op: Op, x: nat, y: nat): nat {
    match op
    case XOR => if x != y then 1 else 0
    case OR => if x == 1 || y == 1 then 1 else 0
    case AND => if x == 1 && y == 1 then 1 else 0
  }

  function Bitwise(op: Op, a: nat, b: nat): nat
    decreases a + b
  {
    if a == 0 && b == 0 then 0 else 2 * Bitwise(op, a / 2, b / 2) + OnBits(op, a % 2, b % 2)
  }

  /** a >> k */
  function Shr(a: nat, k: nat): nat {
    if k == 0 then a else Shr(a / 2, k - 1)
  }

  /** a << k, unbounded */
  function Shl(a: nat, k: nat): nat {
    if k == 0 then a else 2 * Shl(a, k - 1)
  }

  lemma ShrFour(a: nat, k: nat)
    ensures Shr(a, k + 4) == Shr(a / 16, k)
  {
    assert Shr(a, k + 4) == Shr(a / 2, k + 3);
    assert Shr(a / 2, k + 3) == Shr(a / 4, k + 2);
    assert Shr(a / 4, k + 2) == Shr(a / 8, k + 1);
  }

  lemma {:induction false} ShlSum(a: nat, b: nat, k: nat)
    ensures Shl(a + b, k) == Shl(a, k) + Shl(b, k)
  {
    if k > 0 {
      ShlSum(a, b, k - 1);
    }
  }

  lemma {:induction false} ShlScale(a: nat, k: nat)
    ensures Shl(0x100 * a, k) == 0x100 * Shl(a, k)
  {
    if k > 0 {
      ShlScale(a, k - 1);
    }
  }

  lemma {:induction false} ShlByteBound(b: nat, k: nat)
    requires b < 0x100
    ensures Shl(b, k) < 0x100 * Pow2(k)
  {
    if k > 0 {
      ShlByteBound(b, k - 1);
    }
  }

  /** Or-ing a byte below a shifted number appends it. */
  lemma JoinByte(high: nat, b: nat, k: nat)
    requires b < 0x100
    ensures Bitwise(OR, Shl(high, k + 8), Shl(b, k)) == Shl(0x100 * high + b, k)
  {
    EightPlaces(high, k);
    ShlByteBound(b, k);
    DisjointIsSum(OR, Shl(b, k), high, k + 8);
    ShlSum(0x100 * high, b, k);
    ShlScale(high, k);
  }

  /** Eight more places are a factor of 256. */
  lemma EightPlaces(a: nat, k: nat)
    ensures Shl(a, k + 8) == 0x100 * Shl(a, k) && Pow2(k + 8) == 0x100 * Pow2(k)
  {
    FourPlaces(a, k);
    FourPlaces(a, k + 4);
  }

  lemma FourPlaces(a: nat, k: nat)
    ensures Shl(a, k + 4) == 16 * Shl(a, k) && Pow2(k + 4) == 16 * Pow2(k)
  {
    assert Shl(a, k + 1) == 2 * Shl(a, k) && Pow2(k + 1) == 2 * Pow2(k);
    assert Shl(a, k + 2) == 4 * Shl(a, k) && Pow2(k + 2) == 4 * Pow2(k);
    assert Shl(a, k + 3) == 8 * Shl(a, k) && Pow2(k + 3) == 8 * Pow2(k);
  }

  lemma {:induction false} WithZero(op: Op, a: nat)
    requires op != AND
    ensures Bitwise(op, a, 0) == a && Bitwise(op, 0, a) == a
  {
    if a > 0 {
      WithZero(op, a / 2);
    }
  }

  /** Xor and or of numbers with no common bit is their sum. */
  lemma {:induction false} DisjointIsSum(op: Op, low: nat, high: nat, k: nat)
    requires op != AND && low < Pow2(k)
    ensures Bitwise(op, low, Shl(high, k)) == low + Shl(high, k)
    ensures Bitwise(op, Shl(high, k), low) == low + Shl(high, k)
  {
    if k == 0 {
      WithZero(op, high);
    } else {
      DisjointIsSum(op, low / 2, high, k - 1);
      var h := Shl(high, k - 1);
      assert (2 * h) / 2 == h && (2 * h) % 2 == 0;
      if low > 0 || h > 0 {
        assert Bitwise(op, low, 2 * h) == 2 * Bitwise(op, low / 2, h) + OnBits(op, low % 2, 0);
        assert Bitwise(op, 2 * h, low) == 2 * Bitwise(op, h, low / 2) + OnBits(op, 0, low % 2);
      }
    }
  }

  /** Bit k of a. */
  predicate Bit(a: nat, k: nat) {
    Shr(a, k) % 2 == 1
  }

  lemma {:induction false} AndZero(a: nat)
    ensures Bitwise(AND, a, 0) == 0
  {
    if a > 0 {
      AndZero(a / 2);
    }
  }

  /** Masking with one bit tests that bit. */
  lemma {:induction false} MaskTestsBit(a: nat, k: nat)
    ensures Bitwise(AND, a, Pow2(k)) == 0 <==> !Bit(a, k)
  {
    if k == 0 {
      AndZero(a / 2);
    } else {
      var h := Pow2(k - 1);
      assert (2 * h) / 2 == h && (2 * h) % 2 == 0;
      MaskTestsBit(a / 2, k - 1);
      assert Bitwise(AND, a, 2 * h) == 2 * Bitwise(AND, a / 2, h);
    }
  }

  /** Bits of a sum of a low part and a bit above it. */
  lemma {:induction false} BitOfSum(low: nat, high: nat, k: nat, i: nat)
    requires low < Pow2(k)
    ensures i < k ==> Bit(low + Shl(high, k), i) == Bit(low, i)
    ensures i >= k ==> Bit(low + Shl(high, k), i) == Bit(high, i - k)
  {
    if k == 0 {
    } else {
      var h := Shl(high, k - 1);
      assert (low + 2 * h) / 2 == low / 2 + h && (low + 2 * h) % 2 == low % 2;
      if i > 0 {
        BitOfSum(low / 2, high, k - 1, i - 1);
      }
    }
  }
}
