/** 64-bit words as the naturals below 2^64, with the machine's shifts and
    bitwise operations given by their effect on the binary expansion. */
module Bits {

  const WORD_LIMIT: nat := 0x1_0000_0000_0000_0000
  const ALL_ONES: Word := 0xFFFF_FFFF_FFFF_FFFF

  type Word = w: nat | w < WORD_LIMIT

  function Pow2(n: nat): (p: nat)
    ensures p >= 1
  {
    if n == 0 then 1 else 2 * Pow2(n - 1)
  }

  /** Bit `k` of `w`. */
  predicate Bit(w: nat, k: nat) {
    if k == 0 then w % 2 == 1 else Bit(w / 2, k - 1)
  }

  /** `w >> n`. */
  function Shr(w: Word, n: nat): Word {
    if n == 0 then w else Shr(w / 2, n - 1)
  }

  function Double(w: Word): Word {
    2 * w % WORD_LIMIT
  }

  /** `w << n`: bits shifted past the top are lost. */
  function Shl(w: Word, n: nat): Word {
    if n == 0 then w else Double(Shl(w, n - 1))
  }

  /** `x & y`. */
  function And(x: nat, y: nat): (r: nat)
    ensures r <= x
  {
    if x == 0 then 0 else 2 * And(x / 2, y / 2) + (x % 2) * (y % 2)
  }

  /** `x | y`. */
  function Or(x: nat, y: nat): nat
    decreases x + y
  {
    if x == 0 && y == 0 then 0
    else 2 * Or(x / 2, y / 2) + (if x % 2 == 1 || y % 2 == 1 then 1 else 0)
  }

  /** `!x`. */
  function Not(x: Word): Word {
    ALL_ONES - x
  }

  /** The `n` low bits set, as `low_mask` in the bitmap shift. */
  function LowMask(n: nat): Word {
    if n >= 64 then ALL_ONES else (ShlOne(n); Shl(1, n) - 1)
  }

  /** `w.trailing_zeros()`: the lowest set bit, or 64. */
  function TrailingZeros(w: Word): (n: nat)
    ensures n <= 64
    ensures n < 64 ==> Bit(w, n)
    ensures forall k :: 0 <= k < n ==> !Bit(w, k)
  {
    TrailingZerosFrom(w, 0)
  }

  function TrailingZerosFrom(w: Word, i: nat): (n: nat)
    requires i <= 64
    ensures i <= n <= 64
    ensures n < 64 ==> Bit(w, n)
    ensures forall k :: i <= k < n ==> !Bit(w, k)
    decreases 64 - i
  {
    if i == 64 || Bit(w, i) then i else TrailingZerosFrom(w, i + 1)
  }

  // ---- What each operation does to each bit --------------------------------

  lemma {:induction false} ShrBit(w: Word, n: nat, k: nat)
    ensures Bit(Shr(w, n), k) == Bit(w, n + k)
  {
    if n > 0 {
      ShrBit(w / 2, n - 1, k);
    }
  }

  lemma {:induction false} AndBit(x: nat, y: nat, k: nat)
    ensures Bit(And(x, y), k) == (Bit(x, k) && Bit(y, k))
  {
    if x == 0 {
      ZeroBit(k);
    } else if k > 0 {
      AndBit(x / 2, y / 2, k - 1);
    }
  }

  lemma {:induction false} OrBit(x: nat, y: nat, k: nat)
    ensures Bit(Or(x, y), k) == (Bit(x, k) || Bit(y, k))
    decreases k
  {
    if x == 0 && y == 0 {
      ZeroBit(k);
    } else if k > 0 {
      OrBit(x / 2, y / 2, k - 1);
    }
  }

  /** A word's `|` stays a word. */
  lemma {:induction false} OrBound(x: nat, y: nat, n: nat)
    requires x < Pow2(n) && y < Pow2(n)
    ensures Or(x, y) < Pow2(n)
    decreases n
  {
    if n > 0 {
      OrBound(x / 2, y / 2, n - 1);
    }
  }

  lemma {:induction false} ZeroBit(k: nat)
    ensures !Bit(0, k)
  {
    if k > 0 {
      ZeroBit(k - 1);
    }
  }

  lemma {:induction false} ComplementBit(x: nat, n: nat, k: nat)
    requires x < Pow2(n) && k < n
    ensures Bit(Pow2(n) - 1 - x, k) == !Bit(x, k)
    decreases k
  {
    if k > 0 {
      ComplementBit(x / 2, n - 1, k - 1);
      assert (Pow2(n) - 1 - x) / 2 == Pow2(n - 1) - 1 - x / 2;
    }
  }

  lemma NotBit(x: Word, k: nat)
    requires k < 64
    ensures Bit(Not(x), k) == !Bit(x, k)
  {
    Pow2Word();
    ComplementBit(x, 64, k);
  }

  lemma Pow2Word()
    ensures Pow2(63) == 0x8000_0000_0000_0000
    ensures Pow2(64) == WORD_LIMIT
  {
    hide Pow2;
    Pow2Byte();
    Pow2Add(8, 8);
    Pow2Add(16, 16);
    Pow2Add(32, 32);
    Pow2Next(63);
  }

  lemma Pow2Zero()
    ensures Pow2(0) == 1
  {
  }

  lemma Pow2Next(n: nat)
    ensures Pow2(n + 1) == 2 * Pow2(n)
  {
  }

  lemma Pow2Byte()
    ensures Pow2(8) == 256
  {
    assert Pow2(2) == 4 && Pow2(4) == 16 && Pow2(6) == 64;
  }

  lemma {:induction false} Pow2Add(a: nat, b: nat)
    ensures Pow2(a + b) == Pow2(a) * Pow2(b)
  {
    if a > 0 {
      Pow2Add(a - 1, b);
    }
  }

  lemma {:induction false} DropTopBit(x: nat, n: nat, k: nat)
    requires Pow2(n) <= x && k < n
    ensures Bit(x - Pow2(n), k) == Bit(x, k)
    decreases k
  {
    if k > 0 {
      DropTopBit(x / 2, n - 1, k - 1);
      assert (x - Pow2(n)) / 2 == x / 2 - Pow2(n - 1);
    }
  }

  lemma DoubleBit(w: Word, k: nat)
    requires k < 64
    ensures Bit(Double(w), k) == (k > 0 && Bit(w, k - 1))
  {
    Pow2Word();
    if k > 0 {
      if w < Pow2(63) {
        assert Double(w) == 2 * w;
      } else {
        assert Double(w) == 2 * (w - Pow2(63));
        DropTopBit(w, 63, k - 1);
      }
    }
  }

  lemma {:induction false} ShlBit(w: Word, n: nat, k: nat)
    requires k < 64
    ensures Bit(Shl(w, n), k) == (k >= n && Bit(w, k - n))
    decreases n
  {
    if n > 0 {
      DoubleBit(Shl(w, n - 1), k);
      if k > 0 {
        ShlBit(w, n - 1, k - 1);
      }
    }
  }

  lemma {:induction false} OnesBit(n: nat, k: nat)
    ensures Bit(Pow2(n) - 1, k) == (k < n)
    decreases k
  {
    if n == 0 {
      ZeroBit(k);
    } else if k > 0 {
      OnesBit(n - 1, k - 1);
      assert (Pow2(n) - 1) / 2 == Pow2(n - 1) - 1;
    }
  }

  lemma {:induction false} ShlOne(n: nat)
    requires n < 64
    ensures Shl(1, n) == Pow2(n) <= Pow2(63)
  {
    hide Pow2;
    Pow2Word();
    Pow2Monotone(n, 63);
    if n > 0 {
      ShlOne(n - 1);
      Pow2Next(n - 1);
    } else {
      Pow2Zero();
    }
  }

  lemma {:induction false} Pow2Monotone(a: nat, b: nat)
    requires a <= b
    ensures Pow2(a) <= Pow2(b)
    decreases b
  {
    if a < b {
      Pow2Monotone(a, b - 1);
    }
  }

  lemma LowMaskBit(n: nat, k: nat)
    requires k < 64
    ensures Bit(LowMask(n), k) == (k < n)
  {
    Pow2Word();
    if n >= 64 {
      OnesBit(64, k);
    } else {
      ShlOne(n);
      OnesBit(n, k);
    }
  }
}
