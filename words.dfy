/**
 * Unsigned 64-bit words (C# `ulong`) and the bitwise operators the bitset
 * applies to them.
 *
 * A word is an integer in [0, 2^64).  Bit k of a word is its k-th binary
 * digit, and `|`, `&`, `~` and `1UL << k` are defined digit by digit, so that
 * every fact about them is an ordinary induction over the digits.
 */
module Words {

  const WordSize: nat := 64

  function Pow2(n: nat): (p: nat)
    ensures p >= 1
  {
    if n == 0 then 1 else 2 * Pow2(n - 1)
  }

  /** 2^64. */
  const WordLimit: nat := 0x1_0000_0000_0000_0000

  /** `ulong`: the integers below 2^64. */
  type Word = w: nat | w < WordLimit

  /** `ulong.MaxValue`, every one of the 64 bits set. */
  const MaxWord: Word := WordLimit - 1

  /** Bit k of w. */
  predicate Bit(w: nat, k: nat)
  {
    if k == 0 then w % 2 == 1 else Bit(w / 2, k - 1)
  }

  /** `a | b`. */
  function Or(a: nat, b: nat): nat
    decreases a + b
  {
    if a == 0 then b
    else if b == 0 then a
    else 2 * Or(a / 2, b / 2) + (if a % 2 == 1 || b % 2 == 1 then 1 else 0)
  }

  /** `a & b`. */
  function And(a: nat, b: nat): nat
    decreases a + b
  {
    if a == 0 || b == 0 then 0
    else 2 * And(a / 2, b / 2) + (if a % 2 == 1 && b % 2 == 1 then 1 else 0)
  }

  /** `a ^ b`. */
  function Xor(a: nat, b: nat): nat
    decreases a + b
  {
    if a == 0 then b
    else if b == 0 then a
    else 2 * Xor(a / 2, b / 2) + (if a % 2 != b % 2 then 1 else 0)
  }

  /** `~m` on a 64-bit word. */
  function Not(m: Word): Word
  {
    MaxWord - m
  }

  /** `1UL << k` for a shift count below 64. */
  function Mask(k: nat): Word
    requires k < WordSize
  {
    Pow2Monotone(k, WordSize);
    WordLimitIsPow2();
    Pow2(k)
  }

  // ---------------------------------------------------------------------
  // Digits of the operators
  // ---------------------------------------------------------------------

  lemma {:induction false} Pow2Monotone(a: nat, b: nat)
    requires a < b
    ensures Pow2(a) < Pow2(b)
  {
    if a + 1 < b {
      Pow2Monotone(a, b - 1);
    }
  }

  lemma {:induction false} Pow2Add(a: nat, b: nat)
    ensures Pow2(a + b) == Pow2(a) * Pow2(b)
  {
    if b > 0 {
      Pow2Add(a, b - 1);
      assert Pow2(a + b) == 2 * Pow2(a + b - 1);
    }
  }

  lemma Pow2Of16()
    ensures Pow2(16) == 0x1_0000
  {
    assert Pow2(8) == 256;
    Pow2Add(8, 8);
  }

  lemma Pow2Of32()
    ensures Pow2(32) == 0x1_0000_0000
  {
    Pow2Of16();
    Pow2Add(16, 16);
  }

  lemma WordLimitIsPow2()
    ensures Pow2(WordSize) == WordLimit
  {
    Pow2Of32();
    Pow2Add(32, 32);
  }

  lemma {:induction false} ZeroBits(k: nat)
    ensures !Bit(0, k)
  {
    if k > 0 {
      ZeroBits(k - 1);
    }
  }

  lemma {:induction false} BitOr(a: nat, b: nat, k: nat)
    ensures Bit(Or(a, b), k) == (Bit(a, k) || Bit(b, k))
    decreases a + b
  {
    if a == 0 || b == 0 {
      ZeroBits(k);
    } else if k > 0 {
      BitOr(a / 2, b / 2, k - 1);
    }
  }

  lemma {:induction false} BitAnd(a: nat, b: nat, k: nat)
    ensures Bit(And(a, b), k) == (Bit(a, k) && Bit(b, k))
    decreases a + b
  {
    if a == 0 || b == 0 {
      ZeroBits(k);
    } else if k > 0 {
      BitAnd(a / 2, b / 2, k - 1);
    }
  }

  lemma {:induction false} BitXor(a: nat, b: nat, k: nat)
    ensures Bit(Xor(a, b), k) == (Bit(a, k) != Bit(b, k))
    decreases a + b
  {
    if a == 0 || b == 0 {
      ZeroBits(k);
    } else if k > 0 {
      BitXor(a / 2, b / 2, k - 1);
    }
  }

  lemma {:induction false} BitPow2(n: nat, k: nat)
    ensures Bit(Pow2(n), k) == (k == n)
  {
    if n == 0 {
      if k > 0 {
        ZeroBits(k - 1);
      }
    } else if k > 0 {
      BitPow2(n - 1, k - 1);
    }
  }

  /** The complement of m within n bits has exactly the other digits. */
  lemma {:induction false} BitComplement(m: nat, n: nat, k: nat)
    requires m < Pow2(n) && k < n
    ensures Bit(Pow2(n) - 1 - m, k) == !Bit(m, k)
  {
    if k > 0 {
      assert (Pow2(n) - 1 - m) / 2 == Pow2(n - 1) - 1 - m / 2;
      BitComplement(m / 2, n - 1, k - 1);
    }
  }

  /** A number below 2^n has no digit at position n or above. */
  lemma {:induction false} HighBits(w: nat, n: nat, k: nat)
    requires w < Pow2(n) && n <= k
    ensures !Bit(w, k)
  {
    if n == 0 {
      ZeroBits(k);
    } else {
      HighBits(w / 2, n - 1, k - 1);
    }
  }

  /** Two numbers below 2^n with the same n digits are equal. */
  lemma {:induction false} Extensionality(a: nat, b: nat, n: nat)
    requires a < Pow2(n) && b < Pow2(n)
    requires forall k: nat | k < n :: Bit(a, k) == Bit(b, k)
    ensures a == b
  {
    if n > 0 {
      forall k: nat | k < n - 1
        ensures Bit(a / 2, k) == Bit(b / 2, k)
      {
        assert Bit(a, k + 1) == Bit(b, k + 1);
      }
      Extensionality(a / 2, b / 2, n - 1);
      assert Bit(a, 0) == Bit(b, 0);
    }
  }

  lemma {:induction false} OrBound(a: nat, b: nat, n: nat)
    requires a < Pow2(n) && b < Pow2(n)
    ensures Or(a, b) < Pow2(n)
    decreases a + b
  {
    if a != 0 && b != 0 {
      OrBound(a / 2, b / 2, n - 1);
    }
  }

  lemma {:induction false} AndBound(a: nat, b: nat)
    ensures And(a, b) <= a && And(a, b) <= b
    decreases a + b
  {
    if a != 0 && b != 0 {
      AndBound(a / 2, b / 2);
    }
  }

  lemma {:induction false} XorBound(a: nat, b: nat, n: nat)
    requires a < Pow2(n) && b < Pow2(n)
    ensures Xor(a, b) < Pow2(n)
    decreases a + b
  {
    if a != 0 && b != 0 {
      XorBound(a / 2, b / 2, n - 1);
    }
  }

  // ---------------------------------------------------------------------
  // Words
  // ---------------------------------------------------------------------

  /** The same 64 digits. */
  ghost predicate SameBits(a: Word, b: Word)
  {
    forall k: nat | k < WordSize :: Bit(a, k) == Bit(b, k)
  }

  lemma WordExtensionality(a: Word, b: Word)
    requires SameBits(a, b)
    ensures a == b
  {
    WordLimitIsPow2();
    Extensionality(a, b, WordSize);
  }

  function WordOr(a: Word, b: Word): (r: Word)
    ensures forall k: nat | k < WordSize :: Bit(r, k) == (Bit(a, k) || Bit(b, k))
  {
    WordLimitIsPow2();
    OrBound(a, b, WordSize);
    forall k: nat | k < WordSize
      ensures Bit(Or(a, b), k) == (Bit(a, k) || Bit(b, k))
    {
      BitOr(a, b, k);
    }
    Or(a, b)
  }

  function WordAnd(a: Word, b: Word): (r: Word)
    ensures forall k: nat | k < WordSize :: Bit(r, k) == (Bit(a, k) && Bit(b, k))
  {
    AndBound(a, b);
    forall k: nat | k < WordSize
      ensures Bit(And(a, b), k) == (Bit(a, k) && Bit(b, k))
    {
      BitAnd(a, b, k);
    }
    And(a, b)
  }

  function WordXor(a: Word, b: Word): Word
  {
    WordLimitIsPow2();
    XorBound(a, b, WordSize);
    Xor(a, b)
  }

  lemma NotBits(m: Word, k: nat)
    requires k < WordSize
    ensures Bit(Not(m), k) == !Bit(m, k)
  {
    WordLimitIsPow2();
    BitComplement(m, WordSize, k);
  }

  lemma MaskBits(j: nat, k: nat)
    requires j < WordSize
    ensures Bit(Mask(j), k) == (k == j)
  {
    BitPow2(j, k);
  }

  lemma MaxWordBits(k: nat)
    requires k < WordSize
    ensures Bit(MaxWord, k)
  {
    WordLimitIsPow2();
    BitComplement(0, WordSize, k);
    ZeroBits(k);
  }

  lemma ZeroWordBits(k: nat)
    ensures !Bit(0, k)
  {
    ZeroBits(k);
  }

  /** Every digit of b is a digit of a. */
  ghost predicate Covers(a: Word, b: Word)
  {
    forall k: nat | k < WordSize :: Bit(b, k) ==> Bit(a, k)
  }

  /** a and b share a digit. */
  ghost predicate Overlaps(a: Word, b: Word)
  {
    exists k: nat | k < WordSize :: Bit(a, k) && Bit(b, k)
  }

  /** `(a & b) == b` holds exactly when every digit of b is a digit of a. */
  lemma WordContains(a: Word, b: Word)
    ensures (WordAnd(a, b) == b) == Covers(a, b)
  {
    var c := WordAnd(a, b);
    if Covers(a, b) {
      assert SameBits(c, b);
      WordExtensionality(c, b);
    } else {
      var j: nat :| j < WordSize && Bit(b, j) && !Bit(a, j);
      assert !Bit(c, j);
    }
  }

  /** `(a & b) != 0` holds exactly when a and b share a digit. */
  lemma WordMeets(a: Word, b: Word)
    ensures (WordAnd(a, b) != 0) == Overlaps(a, b)
  {
    var c := WordAnd(a, b);
    if Overlaps(a, b) {
      var j: nat :| j < WordSize && Bit(a, j) && Bit(b, j);
      assert Bit(c, j);
      ZeroBits(j);
    } else {
      forall k: nat | k < WordSize
        ensures Bit(c, k) == Bit(0, k)
      {
        ZeroBits(k);
      }
      WordExtensionality(c, 0);
    }
  }

  /** `(w & (1UL << j)) != 0` tests bit j. */
  lemma MaskTest(w: Word, j: nat)
    requires j < WordSize
    ensures (WordAnd(w, Mask(j)) != 0) == Bit(w, j)
  {
    WordMeets(w, Mask(j));
    forall k: nat | k < WordSize
      ensures Bit(Mask(j), k) == (k == j)
    {
      MaskBits(j, k);
    }
  }

  /** `w | (1UL << j)` sets bit j and keeps the others. */
  lemma SetBitOfWord(w: Word, j: nat, k: nat)
    requires j < WordSize && k < WordSize
    ensures Bit(WordOr(w, Mask(j)), k) == (k == j || Bit(w, k))
  {
    MaskBits(j, k);
  }

  /** `w & ~(1UL << j)` clears bit j and keeps the others. */
  lemma ClearBitOfWord(w: Word, j: nat, k: nat)
    requires j < WordSize && k < WordSize
    ensures Bit(WordAnd(w, Not(Mask(j))), k) == (k != j && Bit(w, k))
  {
    MaskBits(j, k);
    NotBits(Mask(j), k);
  }

  // ---------------------------------------------------------------------
  // Hash codes
  // ---------------------------------------------------------------------

  /** 2^32: a C# `int` hash code is kept as its 32-bit pattern. */
  const HashLimit: nat := 0x1_0000_0000

  /** `ulong.GetHashCode()`: the low 32 bits xor the high 32 bits. */
  function UlongHash(w: Word): (h: nat)
    ensures h < HashLimit
  {
    Pow2Of32();
    XorBound(w % HashLimit, w / HashLimit, 32);
    Xor(w % HashLimit, w / HashLimit)
  }

  /** The FNV-1 offset basis `(int) 2166136261` and prime `16777619`. */
  const HashSeed: nat := 0x811C_9DC5
  const HashPrime: nat := 0x0100_0193

  /** One round `hash = (hash * 16777619) ^ value`, wrapping at 32 bits. */
  function FnvStep(hash: nat, value: nat): (h: nat)
    requires hash < HashLimit && value < HashLimit
    ensures h < HashLimit
  {
    Pow2Of32();
    XorBound(hash * HashPrime % HashLimit, value, 32);
    Xor(hash * HashPrime % HashLimit, value)
  }
}
