/**
 * Bit-level arithmetic on unsigned machine words, with words represented as
 * natural numbers. Every operation is defined bit by bit, and every operation
 * comes with a lemma saying which bits of its result are set; `BitsDetermine`
 * (two numbers with the same bits are equal) turns such bit facts back into
 * equalities of words.
 */
module Bits {

  /** 2 to the power n. */
  function Pow2(n: nat): (r: nat)
    ensures r >= 1
  {
    if n == 0 then 1 else 2 * Pow2(n - 1)
  }

  /** Bit i (counted from the least significant bit, starting at 0) of x is 1. */
  predicate BitSet(x: nat, i: nat)
  {
    if i == 0 then x % 2 == 1 else BitSet(x / 2, i - 1)
  }

  /** Bits of a number of the form 2 * q + b, with b a single bit. */
  lemma BitsOfDouble(q: nat, b: nat, i: nat)
    requires b < 2
    ensures BitSet(2 * q + b, i) == if i == 0 then b == 1 else BitSet(q, i - 1)
  {
    assert (2 * q + b) / 2 == q;
  }

  lemma {:induction false} NoBitsOfZero(i: nat)
    ensures !BitSet(0, i)
  {
    if i > 0 {
      NoBitsOfZero(i - 1);
    }
  }

  /** Two numbers with the same bits are the same number. */
  lemma {:induction false} BitsDetermine(x: nat, y: nat)
    requires forall i: nat :: BitSet(x, i) == BitSet(y, i)
    ensures x == y
    decreases x + y
  {
    if x + y > 0 {
      assert BitSet(x, 0) == BitSet(y, 0);
      forall i: nat
        ensures BitSet(x / 2, i) == BitSet(y / 2, i)
      {
        assert BitSet(x, i + 1) == BitSet(y, i + 1);
      }
      BitsDetermine(x / 2, y / 2);
    }
  }

  /** A number below 2^k has no bit at position k or above. */
  lemma {:induction false} BitsAboveClear(x: nat, k: nat, i: nat)
    requires x < Pow2(k) && k <= i
    ensures !BitSet(x, i)
  {
    if k == 0 {
      NoBitsOfZero(i);
    } else {
      BitsAboveClear(x / 2, k - 1, i - 1);
    }
  }

  /** A number with no bit at position k or above is below 2^k. */
  lemma {:induction false} BoundFromBits(x: nat, k: nat)
    requires forall i: nat :: k <= i ==> !BitSet(x, i)
    ensures x < Pow2(k)
  {
    if k == 0 {
      forall i: nat
        ensures BitSet(x, i) == BitSet(0, i)
      {
        NoBitsOfZero(i);
      }
      BitsDetermine(x, 0);
    } else {
      forall i: nat | k - 1 <= i
        ensures !BitSet(x / 2, i)
      {
        assert !BitSet(x, i + 1);
      }
      BoundFromBits(x / 2, k - 1);
    }
  }

  /** Bitwise AND (`a & b`). */
  function And(a: nat, b: nat): (r: nat)
  {
    if a == 0 then 0
    else 2 * And(a / 2, b / 2) + (if a % 2 == 1 && b % 2 == 1 then 1 else 0)
  }

  lemma {:induction false} AndBits(a: nat, b: nat, i: nat)
    ensures BitSet(And(a, b), i) == (BitSet(a, i) && BitSet(b, i))
  {
    if a == 0 {
      NoBitsOfZero(i);
    } else {
      BitsOfDouble(And(a / 2, b / 2), if a % 2 == 1 && b % 2 == 1 then 1 else 0, i);
      if i > 0 {
        AndBits(a / 2, b / 2, i - 1);
      }
    }
  }

  /** Bitwise OR (`a | b`). */
  function Or(a: nat, b: nat): (r: nat)
    decreases a + b
  {
    if a + b == 0 then 0
    else 2 * Or(a / 2, b / 2) + (if a % 2 == 1 || b % 2 == 1 then 1 else 0)
  }

  lemma {:induction false} OrBits(a: nat, b: nat, i: nat)
    ensures BitSet(Or(a, b), i) == (BitSet(a, i) || BitSet(b, i))
    decreases a + b
  {
    if a + b == 0 {
      NoBitsOfZero(i);
    } else {
      BitsOfDouble(Or(a / 2, b / 2), if a % 2 == 1 || b % 2 == 1 then 1 else 0, i);
      if i > 0 {
        OrBits(a / 2, b / 2, i - 1);
      }
    }
  }

  /** Bitwise complement within a word of w bits (`~a` in a w-bit type). */
  function Not(a: nat, w: nat): (r: nat)
  {
    if w == 0 then 0 else 2 * Not(a / 2, w - 1) + (if a % 2 == 1 then 0 else 1)
  }

  lemma {:induction false} NotBits(a: nat, w: nat, i: nat)
    ensures BitSet(Not(a, w), i) == (i < w && !BitSet(a, i))
  {
    if w == 0 {
      NoBitsOfZero(i);
    } else {
      BitsOfDouble(Not(a / 2, w - 1), if a % 2 == 1 then 0 else 1, i);
      if i > 0 {
        NotBits(a / 2, w - 1, i - 1);
      }
    }
  }

  /** Left shift without loss of bits (`a << n` in a wide enough type). */
  function Shl(a: nat, n: nat): (r: nat)
  {
    if n == 0 then a else 2 * Shl(a, n - 1)
  }

  lemma {:induction false} ShlBits(a: nat, n: nat, i: nat)
    ensures BitSet(Shl(a, n), i) == (n <= i && BitSet(a, i - n))
  {
    if n > 0 {
      BitsOfDouble(Shl(a, n - 1), 0, i);
      if i > 0 {
        ShlBits(a, n - 1, i - 1);
      }
    }
  }

  /** Logical right shift (`a >> n`). */
  function Shr(a: nat, n: nat): (r: nat)
  {
    if n == 0 then a else Shr(a / 2, n - 1)
  }

  lemma {:induction false} ShrBits(a: nat, n: nat, i: nat)
    ensures BitSet(Shr(a, n), i) == BitSet(a, i + n)
  {
    if n > 0 {
      ShrBits(a / 2, n - 1, i);
    }
  }

  /** The low w bits of a (conversion to an unsigned w-bit type). */
  function Trunc(a: nat, w: nat): (r: nat)
  {
    if w == 0 then 0 else 2 * Trunc(a / 2, w - 1) + a % 2
  }

  lemma {:induction false} TruncBits(a: nat, w: nat, i: nat)
    ensures BitSet(Trunc(a, w), i) == (i < w && BitSet(a, i))
  {
    if w == 0 {
      NoBitsOfZero(i);
    } else {
      BitsOfDouble(Trunc(a / 2, w - 1), a % 2, i);
      if i > 0 {
        TruncBits(a / 2, w - 1, i - 1);
      }
    }
  }

  /** 2^k - 1 has exactly the bits below k set. */
  lemma {:induction false} LowOnesBits(k: nat, i: nat)
    ensures BitSet(Pow2(k) - 1, i) == (i < k)
  {
    if k == 0 {
      NoBitsOfZero(i);
    } else {
      BitsOfDouble(Pow2(k - 1) - 1, 1, i);
      if i > 0 {
        LowOnesBits(k - 1, i - 1);
      }
    }
  }

  /** 2^k has exactly bit k set. */
  lemma {:induction false} Pow2Bits(k: nat, i: nat)
    ensures BitSet(Pow2(k), i) == (i == k)
  {
    if k == 0 {
      BitsOfDouble(0, 1, i);
      if i > 0 {
        NoBitsOfZero(i - 1);
      }
    } else {
      BitsOfDouble(Pow2(k - 1), 0, i);
      if i > 0 {
        Pow2Bits(k - 1, i - 1);
      }
    }
  }

  lemma {:induction false} Pow2Monotone(j: nat, k: nat)
    requires j <= k
    ensures Pow2(j) <= Pow2(k)
  {
    if j < k {
      Pow2Monotone(j, k - 1);
    }
  }

  /** Shifting left by n multiplies by 2^n. */
  lemma {:induction false} ShlIsMul(a: nat, n: nat)
    ensures Shl(a, n) == a * Pow2(n)
  {
    if n > 0 {
      ShlIsMul(a, n - 1);
      assert 2 * (a * Pow2(n - 1)) == a * (2 * Pow2(n - 1));
    }
  }
}
