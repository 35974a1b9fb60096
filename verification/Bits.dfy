/** The u32 bitmaps of the TLSF index, as naturals read bit by bit.

    `SetBit(m, i)` is `m | (1 << i)`, `ClearBit(m, i)` is `m & !(1 << i)`, `MaskFrom(m, s)` is
    `m & (!0 << s)` and `TrailingZeros` counts the zeros below the lowest set bit. */
module Bits {
  import opened Arithmetic

  const U32_LIMIT: nat := 0x1_0000_0000

  function Pow2(k: nat): (p: nat)
    ensures p > 0
  {
    if k == 0 then 1 else 2 * Pow2(k - 1)
  }

  predicate Bit(m: nat, i: nat) {
    if i == 0 then m % 2 == 1 else Bit(m / 2, i - 1)
  }

  function SetBit(m: nat, i: nat): nat {
    if i == 0 then m / 2 * 2 + 1 else m % 2 + 2 * SetBit(m / 2, i - 1)
  }

  function ClearBit(m: nat, i: nat): nat {
    if i == 0 then m / 2 * 2 else m % 2 + 2 * ClearBit(m / 2, i - 1)
  }

  function MaskFrom(m: nat, s: nat): nat {
    if s == 0 then m else 2 * MaskFrom(m / 2, s - 1)
  }

  function TrailingZeros(m: nat): nat
    requires m > 0
  {
    if m % 2 == 1 then 0 else 1 + TrailingZeros(m / 2)
  }

  lemma {:induction false} SetBitBit(m: nat, i: nat, j: nat)
    ensures Bit(SetBit(m, i), j) == (i == j || Bit(m, j))
  {
    if i > 0 && j > 0 {
      SetBitBit(m / 2, i - 1, j - 1);
      assert SetBit(m, i) / 2 == SetBit(m / 2, i - 1);
    }
  }

  /** Setting a clear bit adds its weight: `SetBit` is the bitwise or with `1 << i`. */
  lemma {:induction false} SetBitValue(m: nat, i: nat)
    ensures SetBit(m, i) == if Bit(m, i) then m else m + Pow2(i)
  {
    if i > 0 {
      SetBitValue(m / 2, i - 1);
    }
  }

  lemma {:induction false} ClearBitBit(m: nat, i: nat, j: nat)
    ensures Bit(ClearBit(m, i), j) == (i != j && Bit(m, j))
  {
    if i > 0 && j > 0 {
      ClearBitBit(m / 2, i - 1, j - 1);
      assert ClearBit(m, i) / 2 == ClearBit(m / 2, i - 1);
    }
  }

  /** Clearing a set bit takes its weight away: `ClearBit` is the bitwise and with `!(1 << i)`. */
  lemma {:induction false} ClearBitValue(m: nat, i: nat)
    ensures ClearBit(m, i) == if Bit(m, i) then m - Pow2(i) else m
  {
    if i > 0 {
      ClearBitValue(m / 2, i - 1);
    }
  }

  lemma {:induction false} MaskFromBit(m: nat, s: nat, j: nat)
    ensures Bit(MaskFrom(m, s), j) == (s <= j && Bit(m, j))
  {
    if s > 0 {
      if j > 0 {
        MaskFromBit(m / 2, s - 1, j - 1);
        assert MaskFrom(m, s) / 2 == MaskFrom(m / 2, s - 1);
      }
    }
  }

  lemma {:induction false} MaskFromMultiple(m: nat, s: nat) returns (k: nat)
    ensures MaskFrom(m, s) == k * Pow2(s) && k * Pow2(s) <= m < (k + 1) * Pow2(s)
  {
    if s == 0 {
      k := m;
    } else {
      k := MaskFromMultiple(m / 2, s - 1);
      DoubledBounds(m, k, Pow2(s - 1));
    }
  }

  lemma DoubledBounds(m: nat, k: nat, p: nat)
    requires k * p <= m / 2 < (k + 1) * p
    ensures 2 * (k * p) == k * (2 * p) <= m < (k + 1) * (2 * p)
  {
    Doubled(k, p);
    Doubled(k + 1, p);
  }

  lemma Doubled(k: nat, p: nat)
    ensures k * (2 * p) == 2 * (k * p)
  {
  }

  /** Masking from s is shifting right by s and back: `MaskFrom` is the bitwise and with `!0 << s`. */
  lemma MaskFromValue(m: nat, s: nat)
    ensures MaskFrom(m, s) == m / Pow2(s) * Pow2(s)
  {
    var k := MaskFromMultiple(m, s);
    DivBounds(m, Pow2(s), k);
  }

  /** The trailing zeros of a non-zero word end at its lowest set bit. */
  lemma {:induction false} LowestBit(m: nat)
    requires m > 0
    ensures Bit(m, TrailingZeros(m))
    ensures forall j :: 0 <= j < TrailingZeros(m) ==> !Bit(m, j)
  {
    if m % 2 == 0 {
      LowestBit(m / 2);
      forall j | 0 <= j < TrailingZeros(m) ensures !Bit(m, j) {
        if j > 0 {
          assert !Bit(m / 2, j - 1);
        }
      }
    }
  }

  lemma {:induction false} ZeroHasNoBit(i: nat)
    ensures !Bit(0, i)
  {
    if i > 0 {
      ZeroHasNoBit(i - 1);
    }
  }

  /** A word stays below its width when only bits inside the width are set. */
  lemma {:induction false} BelowWidth(m: nat, w: nat)
    requires forall j: nat :: w <= j ==> !Bit(m, j)
    ensures m < Pow2(w)
  {
    if w == 0 {
      if m > 0 {
        LowestBit(m);
      }
    } else {
      forall j: nat | w - 1 <= j ensures !Bit(m / 2, j) {
        assert !Bit(m, j + 1);
      }
      BelowWidth(m / 2, w - 1);
    }
  }

  /** Two words with the same bits are the same word. */
  lemma {:induction false} SameBits(a: nat, b: nat)
    requires forall j: nat :: Bit(a, j) == Bit(b, j)
    ensures a == b
    decreases a + b
  {
    if a + b > 0 {
      assert Bit(a, 0) == Bit(b, 0);
      forall j: nat ensures Bit(a / 2, j) == Bit(b / 2, j) {
        assert Bit(a, j + 1) == Bit(b, j + 1);
      }
      SameBits(a / 2, b / 2);
    }
  }
}
