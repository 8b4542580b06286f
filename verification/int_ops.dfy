/**
  The Kotlin `Int` operators the handlers use, on mathematical integers:
  the truncating remainder `%`, bitwise `inv`, `and` and `or`.
  Bitwise operations follow two's complement with unbounded width, which
  agrees with Kotlin's 32-bit `Int` whenever the operands fit in an `Int`.
 */
module IntOps {

  /** 2^k. */
  function Pow2(k: nat): (r: nat)
    ensures r >= 1
  {
    if k == 0 then 1 else 2 * Pow2(k - 1)
  }

  /**
    Kotlin's `a % b` for b != 0: the remainder of division truncated toward
    zero, which takes the sign of the dividend (Dafny's `%` is Euclidean).
   */
  function TruncRem(a: int, b: int): (r: int)
    requires b != 0
    ensures 0 <= a ==> 0 <= r < Abs(b)
    ensures a < 0 ==> -Abs(b) < r <= 0
    ensures 0 <= a && 0 < b ==> r == a % b
  {
    if a >= 0 then a % b else -((-a) % b)
  }

  function Abs(x: int): int {
    if x < 0 then -x else x
  }

  /** Kotlin's `Int.toChar()`: the low 16 bits of the two's-complement pattern. */
  function ToChar(x: int): (c: int)
    ensures 0 <= c < 65536
    ensures (x - c) % 65536 == 0
    ensures 0 <= x < 65536 ==> c == x
  {
    x % 65536
  }

  /** Kotlin's `x.inv()`: every bit flipped, i.e. -x - 1. */
  function Inv(x: int): int {
    -x - 1
  }

  /** Bitwise AND of two non-negative integers. */
  function NatAnd(a: nat, b: nat): (r: nat)
    ensures r <= a && r <= b
  {
    if a == 0 || b == 0 then 0
    else 2 * NatAnd(a / 2, b / 2) + (if a % 2 == 1 && b % 2 == 1 then 1 else 0)
  }

  /** Bitwise OR of two non-negative integers. */
  function NatOr(a: nat, b: nat): (r: nat)
    ensures a <= r && b <= r && r <= a + b
  {
    if a == 0 then b
    else if b == 0 then a
    else 2 * NatOr(a / 2, b / 2) + (if a % 2 == 1 || b % 2 == 1 then 1 else 0)
  }

  /**
    Kotlin's `a and b`. A negative operand is the complement of a
    non-negative one, and ~x & ~y = ~(x | y), y & ~x = y - (y & x).
   */
  function BitAnd(a: int, b: int): int {
    if a >= 0 && b >= 0 then NatAnd(a, b)
    else if a < 0 && b < 0 then Inv(NatOr(Inv(a), Inv(b)))
    else if a < 0 then b - NatAnd(b, Inv(a))
    else a - NatAnd(a, Inv(b))
  }

  /**
    Kotlin's `a or b`, through ~x | ~y = ~(x & y) and ~x | y = ~(x - (x & y)).
   */
  function BitOr(a: int, b: int): int {
    if a >= 0 && b >= 0 then NatOr(a, b)
    else if a < 0 && b < 0 then Inv(NatAnd(Inv(a), Inv(b)))
    else if a < 0 then Inv(Inv(a) - NatAnd(Inv(a), b))
    else Inv(Inv(b) - NatAnd(Inv(b), a))
  }

  // ------------------------------------------------------------ bits

  /** Bit k of x: the reference meaning of the bitwise operations. */
  function Bit(x: nat, k: nat): nat {
    (x / Pow2(k)) % 2
  }

  /** AND is bitwise: bit k of a & b is set iff bit k is set in both. */
  lemma {:induction false} NatAndBit(a: nat, b: nat, k: nat)
    ensures Bit(NatAnd(a, b), k) == if Bit(a, k) == 1 && Bit(b, k) == 1 then 1 else 0
  {
    if a == 0 || b == 0 {
      BitOfZero(k);
    } else {
      var n, t := NatAnd(a / 2, b / 2), if a % 2 == 1 && b % 2 == 1 then 1 else 0;
      assert NatAnd(a, b) == 2 * n + t;
      HalfOfDouble(n, t);
      if k == 0 {
        BitZero(NatAnd(a, b));
        BitZero(a);
        BitZero(b);
      } else {
        BitOfHalf(NatAnd(a, b), k);
        BitOfHalf(a, k);
        BitOfHalf(b, k);
        NatAndBit(a / 2, b / 2, k - 1);
      }
    }
  }

  /** OR is bitwise: bit k of a | b is set iff bit k is set in either. */
  lemma {:induction false} NatOrBit(a: nat, b: nat, k: nat)
    ensures Bit(NatOr(a, b), k) == if Bit(a, k) == 1 || Bit(b, k) == 1 then 1 else 0
  {
    if a == 0 || b == 0 {
      BitOfZero(k);
    } else {
      var n, t := NatOr(a / 2, b / 2), if a % 2 == 1 || b % 2 == 1 then 1 else 0;
      assert NatOr(a, b) == 2 * n + t;
      HalfOfDouble(n, t);
      if k == 0 {
        BitZero(NatOr(a, b));
        BitZero(a);
        BitZero(b);
      } else {
        BitOfHalf(NatOr(a, b), k);
        BitOfHalf(a, k);
        BitOfHalf(b, k);
        NatOrBit(a / 2, b / 2, k - 1);
      }
    }
  }

  lemma BitZero(x: nat)
    ensures Bit(x, 0) == x % 2
  {
  }

  lemma BitOfZero(k: nat)
    ensures Bit(0, k) == 0
  {
  }

  lemma HalfOfDouble(n: nat, t: nat)
    requires t < 2
    ensures (2 * n + t) / 2 == n && (2 * n + t) % 2 == t
  {
  }

  /** Bit k of x is bit k - 1 of x / 2. */
  lemma BitOfHalf(x: nat, k: nat)
    requires k > 0
    ensures Bit(x, k) == Bit(x / 2, k - 1)
  {
    HalveThenDivide(x, k);
  }

  lemma HalveThenDivide(x: nat, k: nat)
    requires k > 0
    ensures x / Pow2(k) == (x / 2) / Pow2(k - 1)
  {
    var p := Pow2(k - 1);
    var q, r2, r1 := (x / 2) / p, (x / 2) % p, x % 2;
    assert x == q * (2 * p) + (2 * r2 + r1) by {
      assert x / 2 == q * p + r2;
    }
    DivUnique(x, 2 * p, q, 2 * r2 + r1);
  }

  /** Quotient and remainder are the only ones with x == q * d + r and 0 <= r < d. */
  lemma DivUnique(x: int, d: int, q: int, r: int)
    requires d > 0 && 0 <= r < d && x == q * d + r
    ensures x / d == q && x % d == r
  {
    var q0, r0 := x / d, x % d;
    assert (q - q0) * d == r0 - r;
    if q > q0 {
      MulAtLeast(q - q0, d);
    } else if q < q0 {
      MulAtLeast(q0 - q, d);
    }
  }

  lemma MulAtLeast(e: int, d: int)
    requires e >= 1 && d > 0
    ensures e * d >= d
  {
    assert e * d == (e - 1) * d + d;
  }

  // ------------------------------------------------------------ laws

  /** The remainder is odd in the dividend: negating it negates the result. */
  lemma TruncRemOdd(a: int, b: int)
    requires b != 0
    ensures TruncRem(-a, b) == -TruncRem(a, b)
  {
    if a > 0 {
      assert TruncRem(-a, b) == -(a % b);
    } else if a < 0 {
      assert TruncRem(a, b) == -((-a) % b);
    }
  }

  /** The sign of the divisor does not matter. */
  lemma TruncRemDivisorSign(a: int, b: int)
    requires b != 0
    ensures TruncRem(a, -b) == TruncRem(a, b)
  {
    var n := if a >= 0 then a else -a;
    assert n % b == n % -b;
  }

  /** Per bit, AND and OR together count each set bit of a and b once: a & b + a | b == a + b. */
  lemma {:induction false} AndPlusOr(a: nat, b: nat)
    ensures NatAnd(a, b) + NatOr(a, b) == a + b
  {
    if a != 0 && b != 0 {
      AndPlusOr(a / 2, b / 2);
    }
  }

  /** AND and OR of a number with itself give the number back. */
  lemma {:induction false} NatOpsIdempotent(a: nat)
    ensures NatAnd(a, a) == a && NatOr(a, a) == a
  {
    if a != 0 {
      NatOpsIdempotent(a / 2);
    }
  }

  lemma {:induction false} NatAndCommutes(a: nat, b: nat)
    ensures NatAnd(a, b) == NatAnd(b, a)
  {
    if a != 0 && b != 0 {
      NatAndCommutes(a / 2, b / 2);
    }
  }

  lemma {:induction false} NatOrCommutes(a: nat, b: nat)
    ensures NatOr(a, b) == NatOr(b, a)
  {
    if a != 0 && b != 0 {
      NatOrCommutes(a / 2, b / 2);
    }
  }

  /** AND and OR are commutative on every pair of integers. */
  lemma BitOpsCommute(a: int, b: int)
    ensures BitAnd(a, b) == BitAnd(b, a)
    ensures BitOr(a, b) == BitOr(b, a)
  {
    if a >= 0 && b >= 0 {
      NatAndCommutes(a, b);
      NatOrCommutes(a, b);
    } else if a < 0 && b < 0 {
      NatAndCommutes(Inv(a), Inv(b));
      NatOrCommutes(Inv(a), Inv(b));
    }
  }

  /** OR of two k-bit numbers is a k-bit number. */
  lemma {:induction false} NatOrBound(a: nat, b: nat, k: nat)
    requires a < Pow2(k) && b < Pow2(k)
    ensures NatOr(a, b) < Pow2(k)
  {
    if a != 0 && b != 0 {
      assert k > 0;
      NatOrBound(a / 2, b / 2, k - 1);
    }
  }

  /** On 15-bit words, AND and OR stay 15-bit words and are bounded by their operands. */
  lemma BitOpsOnWords(a: int, b: int)
    requires 0 <= a < 32768 && 0 <= b < 32768
    ensures 0 <= BitAnd(a, b) <= a && BitAnd(a, b) <= b
    ensures a <= BitOr(a, b) < 32768 && b <= BitOr(a, b)
  {
    assert Pow2(15) == 32768;
    NatOrBound(a, b, 15);
  }
}
