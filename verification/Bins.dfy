/** The two-level bin arithmetic of the TLSF allocator: `mapping` and `mapping_search`.

    A bin (fl, sl) is also named by its flat index 16 * fl + sl, its place in the `lists` matrix. */
module Bins {
  import opened Arithmetic
  import opened Bits

  const ALIGN: nat := 16
  const HEADER_SIZE: nat := 16
  const MIN_PAYLOAD: nat := 16
  const FL_SHIFT: nat := 4
  const FL_MAX: nat := 21
  const FL_COUNT: nat := 18
  const SL_COUNT: nat := 16
  const SL_LOG2: nat := 4
  const BIN_COUNT: nat := 288
  const BIN_LIMIT: nat := 0x40_0000
  const USIZE_MAX: nat := 0xFFFF_FFFF_FFFF_FFFF

  function Log2(n: nat): nat
    requires n > 0
  {
    if n < 2 then 0 else 1 + Log2(n / 2)
  }

  function SaturatingSub(a: nat, b: nat): nat {
    if a < b then 0 else a - b
  }

  function SaturatingAdd(a: nat, b: nat): nat {
    if a + b > USIZE_MAX then USIZE_MAX else a + b
  }

  /** Bitwise exclusive or with SL_COUNT, which flips bit 4. */
  function XorSlCount(x: nat): nat {
    if x / 16 % 2 == 1 then x - 16 else x + 16
  }

  function AlignUp(size: nat): nat {
    (size + ALIGN - 1) / ALIGN * ALIGN
  }

  function Quotient(x: nat, d: nat): nat
    requires d > 0
  {
    x / d
  }

  function Shr(x: nat, k: nat): nat {
    Quotient(x, Pow2(k))
  }

  function Mapping(size: nat): (nat, nat)
    requires size >= MIN_PAYLOAD
  {
    Log2AtLeast(size, FL_SHIFT);
    var fl := Log2(size);
    (fl - FL_SHIFT, XorSlCount(Shr(size, SaturatingSub(fl, SL_LOG2))))
  }

  function MappingSearch(size: nat): (nat, nat)
    requires MIN_PAYLOAD <= size <= USIZE_MAX
  {
    var round := Pow2(SaturatingSub(Log2(size), SL_LOG2)) - 1;
    var size2 := SaturatingAdd(size, round);
    if Log2(size2) > FL_MAX then (FL_COUNT, 0) else Mapping(size2)
  }

  function Flat(bin: (nat, nat)): nat {
    SL_COUNT * bin.0 + bin.1
  }

  function BinOf(size: nat): nat
    requires size >= MIN_PAYLOAD
  {
    Flat(Mapping(size))
  }

  /** The least size of bin k: (16 + sl) * 2^fl. */
  function BinLow(k: nat): nat {
    (SL_COUNT + k % SL_COUNT) * Pow2(k / SL_COUNT)
  }

  /** The least multiple of `step` that is at least `x`. */
  function RoundUpTo(x: nat, step: nat): nat
    requires step > 0
  {
    Quotient(x + step - 1, step) * step
  }

  /** What a request of `adjusted` bytes is rounded up to before its bin is searched. */
  function SearchSize(adjusted: nat): nat
    requires adjusted >= MIN_PAYLOAD
  {
    RoundUpTo(adjusted, Pow2(SaturatingSub(Log2(adjusted), SL_LOG2)))
  }

  lemma {:induction false} Log2Bounds(n: nat)
    requires n > 0
    ensures Pow2(Log2(n)) <= n < Pow2(Log2(n) + 1)
  {
    if n >= 2 {
      Log2Bounds(n / 2);
    }
  }

  lemma {:induction false} Pow2Monotone(a: nat, b: nat)
    requires a <= b
    ensures Pow2(a) <= Pow2(b)
    decreases b
  {
    if a < b {
      Pow2Monotone(a, b - 1);
    }
  }

  /** log2 is the only exponent whose power brackets n. */
  lemma Log2Unique(n: nat, f: nat)
    requires n > 0 && Pow2(f) <= n < Pow2(f + 1)
    ensures Log2(n) == f
  {
    Log2Bounds(n);
    if Log2(n) < f {
      Pow2Monotone(Log2(n) + 1, f);
    } else if Log2(n) > f {
      Pow2Monotone(f + 1, Log2(n));
    }
  }

  lemma Log2AtLeast(n: nat, f: nat)
    requires n > 0 && n >= Pow2(f)
    ensures Log2(n) >= f
  {
    Log2Bounds(n);
    if Log2(n) < f {
      Pow2Monotone(Log2(n) + 1, f);
    }
  }

  lemma {:induction false} Pow2Add(a: nat, b: nat)
    ensures Pow2(a + b) == Pow2(a) * Pow2(b)
  {
    if a > 0 {
      Pow2Add(a - 1, b);
    }
  }

  /** A block's bin: with log2 = 4 + fl, the quotient is 16 + sl, sl < 16. */
  lemma MappingShape(size: nat)
    requires size >= MIN_PAYLOAD
    ensures var (fl, sl) := Mapping(size);
      && fl + FL_SHIFT == Log2(size) && sl < SL_COUNT
      && (SL_COUNT + sl) * Pow2(fl) <= size < (SL_COUNT + sl + 1) * Pow2(fl)
      && Pow2(fl) == Pow2(SaturatingSub(Log2(size), SL_LOG2))
  {
    Log2AtLeast(size, FL_SHIFT);
    Log2Bounds(size);
    var fl := Log2(size) - FL_SHIFT;
    Pow2Add(4, fl);
    Pow2Add(5, fl);
    Pow2Values();
    QuotientShape(size, Pow2(fl));
  }

  /** Between 16 and 32 steps, the quotient is 16 + sl and the exclusive or keeps just sl. */
  lemma QuotientShape(x: nat, d: nat)
    requires d > 0 && 16 * d <= x < 32 * d
    ensures 16 <= Quotient(x, d) < 32
    ensures XorSlCount(Quotient(x, d)) == Quotient(x, d) - 16
    ensures Quotient(x, d) * d <= x < (Quotient(x, d) + 1) * d
  {
    var q := Quotient(x, d);
    DivBounds(x, d, q);
    hide Quotient;
    if q < 16 { MulLess(q, 16, d); }
    if q > 32 { MulLess(32, q, d); }
  }

  lemma BinLowStep(k: nat)
    ensures BinLow(k) < BinLow(k + 1)
    ensures BinLow(k + 1) == (SL_COUNT + k % SL_COUNT + 1) * Pow2(k / SL_COUNT)
  {
    if k % 16 == 15 {
      assert (k + 1) / 16 == k / 16 + 1 && (k + 1) % 16 == 0;
    } else {
      assert (k + 1) / 16 == k / 16 && (k + 1) % 16 == k % 16 + 1;
    }
    assert (SL_COUNT + k % SL_COUNT + 1) * Pow2(k / SL_COUNT)
        == (SL_COUNT + k % SL_COUNT) * Pow2(k / SL_COUNT) + Pow2(k / SL_COUNT);
  }

  lemma {:induction false} BinLowMonotone(j: nat, k: nat)
    requires j <= k
    ensures BinLow(j) <= BinLow(k)
    ensures j < k ==> BinLow(j) < BinLow(k)
    decreases k
  {
    if j < k {
      BinLowStep(k - 1);
      BinLowMonotone(j, k - 1);
    }
  }

  lemma FlatParts(fl: nat, sl: nat)
    requires sl < SL_COUNT
    ensures Flat((fl, sl)) / SL_COUNT == fl && Flat((fl, sl)) % SL_COUNT == sl
  {
  }

  /** A size lies between the least size of its bin and that of the next. */
  lemma OwnInterval(size: nat)
    requires size >= MIN_PAYLOAD
    ensures BinLow(BinOf(size)) <= size < BinLow(BinOf(size) + 1)
  {
    hide Mapping, Log2, Pow2, SaturatingSub, Flat;
    MappingShape(size);
    var (fl, sl) := Mapping(size);
    FlatParts(fl, sl);
    BinLowStep(BinOf(size));
  }

  /** Bin (fl, sl) is exactly the interval from (16+sl)*2^fl up to (17+sl)*2^fl. */
  lemma BinIsInterval(size: nat, k: nat)
    requires size >= MIN_PAYLOAD
    ensures BinOf(size) == k <==> BinLow(k) <= size < BinLow(k + 1)
  {
    hide BinOf, BinLow;
    var b := BinOf(size);
    OwnInterval(size);
    if k < b {
      BinLowMonotone(k + 1, b);
    } else if b < k {
      BinLowMonotone(b + 1, k);
    }
  }

  /** A size lies in bin k or above exactly when it is at least the least size of bin k. */
  lemma BinAtLeast(size: nat, k: nat)
    requires size >= MIN_PAYLOAD
    ensures BinOf(size) >= k <==> size >= BinLow(k)
  {
    var b := BinOf(size);
    BinIsInterval(size, b);
    if k <= b {
      BinLowMonotone(k, b);
    } else {
      BinLowMonotone(b + 1, k);
    }
  }

  /** `mapping` is monotone, lexicographically on (fl, sl). */
  lemma MappingMonotone(s: nat, t: nat)
    requires MIN_PAYLOAD <= s <= t
    ensures BinOf(s) <= BinOf(t)
    ensures Mapping(s).0 < Mapping(t).0 || (Mapping(s).0 == Mapping(t).0 && Mapping(s).1 <= Mapping(t).1)
  {
    BinIsInterval(s, BinOf(s));
    BinAtLeast(t, BinOf(s));
    MappingShape(s);
    MappingShape(t);
  }

  /** The 288 bins partition the sizes from 16 up to 2^22. */
  lemma MappingInRange(size: nat)
    requires size >= MIN_PAYLOAD
    ensures size < BIN_LIMIT <==> BinOf(size) < BIN_COUNT
    ensures size < BIN_LIMIT <==> Mapping(size).0 < FL_COUNT
    ensures Mapping(size).1 < SL_COUNT
  {
    assert BinLow(288) == 16 * Pow2(18);
    Pow2Values();
    BinAtLeast(size, 288);
    MappingShape(size);
  }

  lemma Pow2Values()
    ensures Pow2(4) == 16 && Pow2(5) == 32 && Pow2(18) == 0x4_0000 && Pow2(22) == BIN_LIMIT
  {
    assert Pow2(4) == 16;
    assert Pow2(8) == 256;
    assert Pow2(12) == 4096;
    assert Pow2(16) == 0x1_0000;
    assert Pow2(20) == 0x10_0000;
  }

  lemma Log2Step(x: nat, d: nat)
    requires x >= MIN_PAYLOAD
    requires d == Pow2(SaturatingSub(Log2(x), SL_LOG2))
    ensures d > 0 && 16 * d <= x < 32 * d
  {
    hide Pow2, Log2;
    Pow2Values();
    Log2AtLeast(x, 4);
    Log2Bounds(x);
    Pow2Add(4, Log2(x) - 4);
    Pow2Add(5, Log2(x) - 4);
  }

  /** A bin's least size, from its step d = 2^fl and its quotient. */
  lemma BinLowOf(y: nat, f: nat, d: nat, q: nat)
    requires d == Pow2(f) && 16 * d <= y < 32 * d && Quotient(y, d) == q
    ensures y >= MIN_PAYLOAD && BinLow(BinOf(y)) == q * d
  {
    Pow2Add(4, f);
    Pow2Add(5, f);
    Pow2Values();
    Log2Unique(y, f + 4);
    QuotientShape(y, d);
    assert BinOf(y) == SL_COUNT * f + (q - 16);
  }

  /** The bin of x + (d - 1) starts at x rounded up to a multiple of d. */
  lemma SearchBinLow(x: nat, d: nat)
    requires x >= MIN_PAYLOAD
    requires d == Pow2(SaturatingSub(Log2(x), SL_LOG2))
    ensures d > 0 && BinLow(BinOf(x + d - 1)) == RoundUpTo(x, d)
  {
    hide Log2, BinOf, BinLow, Quotient;
    Pow2Values();
    Log2Step(x, d);
    Log2AtLeast(x, 4);
    var y, f := x + d - 1, Log2(x) - 4;
    var q := Quotient(y, d);
    if y < 32 * d {
      BinLowOf(y, f, d, q);
    } else {
      CarriedQuotients(y, d);
      BinLowOf(y, f + 1, 2 * d, 16);
    }
  }

  lemma CarriedQuotients(y: nat, d: nat)
    requires d > 0 && 32 * d <= y < 33 * d
    ensures Quotient(y, d) == 32 && Quotient(y, 2 * d) == 16
  {
    DivBounds(y, d, 32);
    DivBounds(y, 2 * d, 16);
  }

  /** `mapping_search` is exact: a size that has a bin lies at or above the searched bin
      if and only if it reaches the request rounded up to its bin step. */
  lemma SearchIsExact(adjusted: nat, size: nat)
    requires MIN_PAYLOAD <= adjusted <= USIZE_MAX
    requires MIN_PAYLOAD <= size < BIN_LIMIT
    ensures Flat(MappingSearch(adjusted)) <= BIN_COUNT
    ensures BinOf(size) >= Flat(MappingSearch(adjusted)) <==> size >= SearchSize(adjusted)
  {
    var d := Pow2(SaturatingSub(Log2(adjusted), SL_LOG2));
    Log2Step(adjusted, d);
    var y := SaturatingAdd(adjusted, d - 1);
    SearchBinLow(adjusted, d);
    RoundUpBounds(adjusted, d);
    MappingInRange(size);
    if Log2(y) > FL_MAX {
      Pow2Values();
      Log2Bounds(y);
      Pow2Monotone(22, Log2(y));
      if adjusted + d - 1 <= USIZE_MAX {
        BinAtLeast(y, 288);
        MappingInRange(y);
        BinLowMonotone(288, BinOf(y));
      }
    } else {
      BinAtLeast(size, BinOf(y));
      if adjusted + d - 1 > USIZE_MAX {
        Log2AtLeast(y, 22);
      } else {
        if y >= BIN_LIMIT { Log2AtLeast(y, 22); }
        MappingInRange(y);
      }
    }
  }

  lemma SearchInRange(size: nat)
    requires MIN_PAYLOAD <= size <= USIZE_MAX
    ensures var (fl, sl) := MappingSearch(size);
      (fl < FL_COUNT && sl < SL_COUNT) || (fl, sl) == (FL_COUNT, 0)
  {
    var y := SaturatingAdd(size, Pow2(SaturatingSub(Log2(size), SL_LOG2)) - 1);
    MappingShape(y);
  }

  lemma RoundUpBounds(x: nat, d: nat)
    requires d > 0
    ensures x <= RoundUpTo(x, d) < x + d
  {
    var q := Quotient(x + d - 1, d);
    DivBounds(x + d - 1, d, q);
    assert (q + 1) * d == q * d + d;
  }

  /** Every block of the searched bin or above is large enough. */
  lemma SearchSizeBounds(adjusted: nat)
    requires adjusted >= MIN_PAYLOAD
    ensures adjusted <= SearchSize(adjusted)
    ensures 16 * SearchSize(adjusted) < 17 * adjusted
  {
    var d := Pow2(SaturatingSub(Log2(adjusted), SL_LOG2));
    Log2Step(adjusted, d);
    RoundUpBounds(adjusted, d);
  }
}
