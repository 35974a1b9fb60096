/** What whole runs of `alloc` and `free` guarantee, proved on the abstract heap. */
module HeapTheorems {
  import opened Arithmetic
  import opened Bits
  import opened Bins
  import opened AbstractHeap
  import opened Lists

  // ---------------------------------------------------------------------------------------------
  // alloc followed by free is the identity

  lemma WithoutFront(b: nat, l: seq<nat>)
    ensures Without([b] + l, b) == l
  {
    assert ([b] + l)[1..] == l;
  }

  lemma UnfileUndoesFile(bins: seq<seq<nat>>, b: nat, n: nat)
    requires UnitBin(n) < |bins|
    ensures Unfiled(Filed(bins, b, n), b, n) == bins
  {
    WithoutFront(b, bins[UnitBin(n)]);
  }

  lemma FileUndoesUnfileFront(bins: seq<seq<nat>>, b: nat, n: nat)
    requires UnitBin(n) < |bins| && bins[UnitBin(n)] != [] && bins[UnitBin(n)][0] == b
    ensures Filed(Unfiled(bins, b, n), b, n) == bins
  {
    var l := bins[UnitBin(n)];
    assert l == [b] + l[1..];
  }

  lemma NoFreePredOfFree(blocks: Blocks, b: nat)
    requires Coalesced(blocks) && b in blocks && blocks[b].free
    ensures forall p: nat :: !IsFreePred(blocks, p, b)
  {
  }

  /** Freeing a block just carved out of the pending block b puts everything back. */
  lemma FreeUndoesCarve(h: Heap, b: nat, need: nat)
    requires Pending(h, b) && Coalesced(h.blocks) && 1 <= need <= h.blocks[b].n
    ensures Free(Carve(h, b, need), b) == h.(bins := Filed(h.bins, b, h.blocks[b].n))
  {
    hide UnitBin, Filed, Unfiled;
    var c := Carve(h, b, need);
    var c0 := c.(blocks := SetFree(c.blocks, b, true));
    NoFreePredOfFree(h.blocks, b);
    if h.blocks[b].n - need >= 2 {
      var q := b + 1 + need;
      SplitIndexed(h.blocks, h.end, h.bins, b, need);
      assert c0.blocks == Split(h.blocks, b, need);
      assert Next(c0.blocks, b) == q;
      AbsorbUndoesSplit(h.blocks, h.end, b, need);
      UnfileUndoesFile(h.bins, q, h.blocks[b].n - need - 1);
      assert MergeNext(c0, b) == h;
    } else {
      assert c0.blocks == h.blocks;
      assert Next(h.blocks, b) in h.blocks ==> !h.blocks[Next(h.blocks, b)].free;
      assert MergeNext(c0, b) == h;
    }
  }

  lemma SuitableIsFront(h: Heap, size: nat)
    requires Indexed(h.blocks, h.bins, NONE)
    requires MIN_PAYLOAD <= size <= USIZE_MAX && Suitable(h.bins, size).Some?
    ensures var b := Suitable(h.bins, size).value;
      b in h.blocks && UnitBin(h.blocks[b].n) < BIN_COUNT
      && h.bins[UnitBin(h.blocks[b].n)] != [] && h.bins[UnitBin(h.blocks[b].n)][0] == b
  {
    var r := FirstBin(h.bins, Flat(MappingSearch(size)));
    assert h.bins[r][0] in h.bins[r];
  }

  /** A successful alloc followed at once by free of its result restores the whole heap: layout,
      flags and every free list in order. */
  lemma FreeUndoesAlloc(h: Heap, size: nat)
    requires WellFormed(h) && size + ALIGN <= USIZE_MAX
    requires Alloc(h, size).0.Some?
    ensures var (p, h1) := Alloc(h, size);
      p.value >= 1 && p.value - 1 in h1.blocks && !h1.blocks[p.value - 1].free
      && Free(h1, p.value - 1) == h
  {
    hide UnitBin, Tiled, Coalesced, Free, Suitable;
    var b := Suitable(h.bins, Adjusted(size)).value;
    SuitableIsFront(h, Adjusted(size));
    SuitableIsLargeEnough(h, Adjusted(size));
    UnfileIndexed(h.blocks, h.end, h.bins, b);
    FreeUndoesUnfiledCarve(h, b, Adjusted(size) / 16);
  }

  lemma FreeUndoesUnfiledCarve(h: Heap, b: nat, need: nat)
    requires b in h.blocks && 1 <= need <= h.blocks[b].n && UnitBin(h.blocks[b].n) < |h.bins|
    requires h.bins[UnitBin(h.blocks[b].n)] != [] && h.bins[UnitBin(h.blocks[b].n)][0] == b
    requires Pending(h.(bins := Unfiled(h.bins, b, h.blocks[b].n)), b) && Coalesced(h.blocks)
    ensures Free(Carve(h.(bins := Unfiled(h.bins, b, h.blocks[b].n)), b, need), b) == h
  {
    FreeUndoesCarve(h.(bins := Unfiled(h.bins, b, h.blocks[b].n)), b, need);
    FileUndoesUnfileFront(h.bins, b, h.blocks[b].n);
  }

  // ---------------------------------------------------------------------------------------------
  // The exact failure condition

  /** A free block lies at or above the searched bin exactly when it reaches the rounded request. */
  lemma FoundBySearch(h: Heap, size: nat, b: nat)
    requires Tiled(h.blocks, h.end) && Indexed(h.blocks, h.bins, NONE)
    requires MIN_PAYLOAD <= size <= USIZE_MAX && b in h.blocks && h.blocks[b].free
    ensures Flat(MappingSearch(size)) <= BIN_COUNT
    ensures UnitBin(h.blocks[b].n) < BIN_COUNT && b in h.bins[UnitBin(h.blocks[b].n)]
    ensures UnitBin(h.blocks[b].n) >= Flat(MappingSearch(size)) <==> 16 * h.blocks[b].n >= SearchSize(size)
  {
    hide BinOf, Mapping, MappingSearch, SearchSize, Flat;
    TiledAt(h.blocks, h.end, b);
    hide Tiled;
    SearchIsExact(size, 16 * h.blocks[b].n);
  }

  lemma AllocFailsRounded(h: Heap, size: nat)
    requires WellFormed(h) && size + ALIGN <= USIZE_MAX && size > 0
    ensures Alloc(h, size).0.None? <==>
            forall b :: b in h.blocks && h.blocks[b].free ==> 16 * h.blocks[b].n < SearchSize(Adjusted(size))
  {
    hide MappingSearch, SearchSize, Flat, UnitBin, Tiled, Coalesced, Trim;
    var s := Adjusted(size);
    var k := Flat(MappingSearch(s));
    SearchIsExact(s, 16);
    var r := FirstBin(h.bins, k);
    forall b | b in h.blocks && h.blocks[b].free
      ensures b in h.bins[UnitBin(h.blocks[b].n)] && UnitBin(h.blocks[b].n) < BIN_COUNT
      ensures UnitBin(h.blocks[b].n) >= k <==> 16 * h.blocks[b].n >= SearchSize(s)
    {
      FoundBySearch(h, s, b);
    }
    if r < BIN_COUNT {
      assert h.bins[r][0] in h.bins[r];
    }
  }

  /** For a request of `size` bytes: a is the least multiple of 16 that holds it. */
  ghost predicate Aligned(size: nat, a: nat) {
    a % 16 == 0 && size <= a < size + 16
  }

  /** 2^fl is the power of two at or below a, and m the least multiple of 2^(fl-4) that is at least a. */
  ghost predicate Rounded(a: nat, fl: nat, m: nat) {
    fl >= 4 && Pow2(fl) <= a < Pow2(fl + 1) && m % Pow2(fl - 4) == 0 && a <= m < a + Pow2(fl - 4)
  }

  lemma AdjustedIsAligned(size: nat, a: nat)
    requires size > 0
    ensures Adjusted(size) == a <==> Aligned(size, a)
  {
    var q := (size + 15) / 16;
    DivBounds(size + 15, 16, q);
    SixteenApart(size, 16 * q, a);
  }

  lemma SixteenApart(size: nat, a: nat, a': nat)
    requires Aligned(size, a)
    ensures a == a' <==> Aligned(size, a')
  {
  }

  /** There is only one multiple of d in a range of length d. */
  lemma OneMultiple(x: nat, d: nat, k: nat, m: nat)
    requires d > 0 && m % d == 0 && x <= m < x + d && x <= k * d < x + d
    ensures m == k * d
  {
    var j := m / d;
    assert m == j * d + m % d;
    if j < k { MulLess(j, k, d); }
    if k < j { MulLess(k, j, d); }
  }

  lemma SearchSizeIsRounded(a: nat, fl: nat, m: nat)
    requires a >= MIN_PAYLOAD && Rounded(a, fl, m)
    ensures SearchSize(a) == m
  {
    hide Pow2, Quotient;
    Log2Unique(a, fl);
    RoundUpBounds(a, Pow2(fl - 4));
    OneMultiple(a, Pow2(fl - 4), Quotient(a + Pow2(fl - 4) - 1, Pow2(fl - 4)), m);
  }

  /** Every request has its a, fl and m. */
  lemma RoundedExists(size: nat) returns (a: nat, fl: nat, m: nat)
    requires size > 0
    ensures Aligned(size, a) && a >= 16 && Rounded(a, fl, m)
  {
    a := Adjusted(size);
    AdjustedIsAligned(size, a);
    fl := Log2(a);
    Pow2Values();
    Log2Bounds(a);
    Log2AtLeast(a, 4);
    var d := Pow2(fl - 4);
    hide Pow2, Log2, Quotient;
    var q := Quotient(a + d - 1, d);
    m := q * d;
    RoundUpBounds(a, d);
    MultipleOf(q, d);
  }

  lemma MultipleOf(q: nat, d: nat)
    requires d > 0
    ensures q * d % d == 0
  {
    DivBounds(q * d, d, q);
    assert q * d == q * d / d * d + q * d % d;
  }

  /** alloc fails exactly when no free block reaches the request, aligned up to 16 and then rounded up
      to a multiple of a sixteenth of the power of two at or below it. */
  lemma AllocFailsExactly(h: Heap, size: nat, a: nat, fl: nat, m: nat)
    requires WellFormed(h) && size + ALIGN <= USIZE_MAX && size > 0 && Aligned(size, a) && Rounded(a, fl, m)
    ensures Alloc(h, size).0.None? <==> forall b :: b in h.blocks && h.blocks[b].free ==> 16 * h.blocks[b].n < m
  {
    hide WellFormed, Alloc, SearchSize, Adjusted, Rounded;
    AdjustedIsAligned(size, a);
    SearchSizeIsRounded(a, fl, m);
    AllocFailsRounded(h, size);
  }

  /** Any free block of at least 17/16 of the aligned request guarantees success. */
  lemma AllocSucceedsWithSlack(h: Heap, size: nat, a: nat, b: nat)
    requires WellFormed(h) && size + ALIGN <= USIZE_MAX && size > 0 && Aligned(size, a)
    requires b in h.blocks && h.blocks[b].free && 16 * (16 * h.blocks[b].n) >= 17 * a
    ensures Alloc(h, size).0.Some?
  {
    hide WellFormed, Alloc, SearchSize, Adjusted;
    AdjustedIsAligned(size, a);
    AllocFailsRounded(h, size);
    SearchSizeBounds(a);
  }

  /** Block b reaches m bytes, is the first on the list of its bin, and every free block of a lower bin
      has less than m. */
  ghost predicate FirstOfLowestBin(h: Heap, b: nat, m: nat)
    requires b in h.blocks && h.blocks[b].n >= 1
  {
    var k := BinOf(16 * h.blocks[b].n);
    && 16 * h.blocks[b].n >= m && k < |h.bins| && h.bins[k] != [] && h.bins[k][0] == b
    && forall c :: c in h.blocks && h.blocks[c].free && h.blocks[c].n >= 1 && BinOf(16 * h.blocks[c].n) < k ==>
         16 * h.blocks[c].n < m
  }

  /** alloc takes a block that reaches the rounded request, of the lowest bin that has one, the first on
      its list. */
  lemma AllocTakesLowestBin(h: Heap, size: nat, a: nat, fl: nat, m: nat, b: nat)
    requires WellFormed(h) && size + ALIGN <= USIZE_MAX && size > 0 && Aligned(size, a) && Rounded(a, fl, m)
    requires Alloc(h, size).0 == Some((b + 1) as nat)
    ensures b in h.blocks && h.blocks[b].free && h.blocks[b].n >= 1 && FirstOfLowestBin(h, b, m)
  {
    hide MappingSearch, SearchSize, Flat, BinOf, Adjusted, Rounded, Trim, Filed, Unfiled;
    AdjustedIsAligned(size, a);
    SearchSizeIsRounded(a, fl, m);
    var k := Flat(MappingSearch(a));
    SearchIsExact(a, 16);
    var r := FirstBin(h.bins, k);
    assert b == h.bins[r][0] && b in h.bins[r];
    TiledAt(h.blocks, h.end, b);
    FoundBySearch(h, a, b);
    forall c | c in h.blocks && h.blocks[c].free && h.blocks[c].n >= 1 && BinOf(16 * h.blocks[c].n) < r
      ensures 16 * h.blocks[c].n < m
    {
      FoundBySearch(h, a, c);
    }
  }

  /** The search may pass over a block that fits: a fresh pool whose one block has 528 bytes refuses 528. */
  lemma ExactFitCanFail() returns (h: Heap)
    ensures WellFormed(h) && h.blocks == map[0 := Block(33, true)] && 16 * 33 == 528
    ensures Alloc(h, 528).0.None?
  {
    var bins: seq<seq<nat>> := seq(BIN_COUNT, _ => []);
    assert WellFormed(Heap(map[], 0, bins));
    FreshPool(33, bins);
    hide WellFormed, Alloc, Filed;
    h := Heap(map[0 := Block(33, true)], 34, Filed(bins, 0, 33));
    assert Pow2(5) == 32 && Pow2(9) == 512 && Pow2(10) == 1024;
    AllocFailsExactly(h, 528, 528, 9, 544);
  }

  // ---------------------------------------------------------------------------------------------
  // Effect on the live allocations, bounded waste

  lemma AllocAddsOneLive(h: Heap, size: nat)
    requires WellFormed(h) && size + ALIGN <= USIZE_MAX
    ensures var (p, h1) := Alloc(h, size);
      if p.None? then h1 == h
      else
        && p.value >= 1 && p.value - 1 in h1.blocks && p.value - 1 !in Live(h.blocks)
        && Live(h1.blocks) == Live(h.blocks)[p.value - 1 := h1.blocks[p.value - 1].n]
  {
    hide UnitBin, Coalesced, Suitable, Unfiled, Filed;
    if Alloc(h, size).0.Some? {
      SuitableIsLargeEnough(h, Adjusted(size));
      var b := Suitable(h.bins, Adjusted(size)).value;
      var need := Adjusted(size) / 16;
      if h.blocks[b].n - need >= 2 {
        SplitTiled(h.blocks, h.end, b, need);
      }
    }
  }

  lemma AllocNoneKeeps(h: Heap, size: nat)
    requires WellFormed(h) && size + ALIGN <= USIZE_MAX
    ensures Alloc(h, size).0.None? ==> Alloc(h, size).1 == h
  {
  }

  /** The block handed out holds the request with less than 32 bytes to spare. */
  lemma WasteIsBounded(h: Heap, size: nat)
    requires WellFormed(h) && size + ALIGN <= USIZE_MAX && Alloc(h, size).0.Some?
    ensures var (p, h1) := Alloc(h, size);
      && p.value >= 1 && p.value - 1 in h1.blocks
      && size <= 16 * h1.blocks[p.value - 1].n < size + 32
  {
    hide UnitBin, Tiled, Coalesced, Suitable, Unfiled, Filed;
    SuitableIsLargeEnough(h, Adjusted(size));
    AdjustedIsAligned(size, Adjusted(size));
  }

  lemma FreeRemovesOneLive(h: Heap, b: nat)
    requires b in h.blocks
    ensures Live(Free(h, b).blocks) == Live(h.blocks) - {b}
  {
    hide MergeNext, MergePrev, Filed, Live;
    var h0 := h.(blocks := SetFree(h.blocks, b, true));
    SetFreeLive(h.blocks, b);
    MergesKeepLive(h0, b);
    MergesKeepLive(MergeNext(h0, b), b);
  }

  /** Live payloads are not empty, lie inside the pool and do not overlap. */
  lemma LivePayloadsDisjoint(h: Heap, a: nat, b: nat)
    requires WellFormed(h) && a in Live(h.blocks) && b in Live(h.blocks)
    ensures a + 1 < Next(h.blocks, a) <= h.end
    ensures a != b ==> Next(h.blocks, a) <= b || Next(h.blocks, b) <= a
  {
    assert Next(h.blocks, a) <= h.end && Next(h.blocks, b) <= h.end;
  }

  // ---------------------------------------------------------------------------------------------
  // Canonical layout

  ghost predicate SameFrom(x: Blocks, y: Blocks, b: nat) {
    forall c: nat :: b <= c ==> (c in x <==> c in y) && (c in x && c in y ==> x[c] == y[c])
  }

  /** Two coalesced tilings with the same live blocks agree from every common boundary on. */
  lemma {:induction false} CanonicalFrom(x: Blocks, y: Blocks, end: nat, b: nat)
    requires Tiled(x, end) && Coalesced(x) && Tiled(y, end) && Coalesced(y)
    requires Live(x) == Live(y)
    requires b == end || (b in x && b in y)
    ensures SameFrom(x, y, b)
    decreases end - b
  {
    if b == end {
      forall c: nat | c in x || c in y ensures c < end {
        assert c in x ==> Next(x, c) <= end;
        assert c in y ==> Next(y, c) <= end;
      }
    } else {
      var nx, ny := Next(x, b), Next(y, b);
      assert b in Live(x) <==> b in Live(y);
      assert nx < ny ==> nx in Live(x) && nx in Live(y);
      assert ny < nx ==> ny in Live(y) && ny in Live(x);
      assert nx == ny;
      assert x[b] == y[b] by {
        if b in Live(x) { assert Live(x)[b] == Live(y)[b]; }
      }
      CanonicalFrom(x, y, end, nx);
      forall c: nat | b < c < nx ensures c !in x && c !in y {}
    }
  }

  /** The physical layout is a function of the set of live blocks alone. */
  lemma CanonicalLayout(g: Heap, h: Heap)
    requires WellFormed(g) && WellFormed(h) && g.end == h.end && Live(g.blocks) == Live(h.blocks)
    ensures g.blocks == h.blocks
  {
    if g.end != 0 {
      CanonicalFrom(g.blocks, h.blocks, g.end, 0);
    }
    assert SameFrom(g.blocks, h.blocks, 0) ==> g.blocks == h.blocks;
  }

  ghost function FreeAll(h: Heap, bs: seq<nat>): Heap
    requires WellFormed(h) && Distinct(bs) && forall b :: b in bs ==> b in Live(h.blocks)
    decreases |bs|
  {
    if bs == [] then h
    else
      assert bs[0] in bs && bs[0] in Live(h.blocks);
      FreeKeepsWellFormed(h, bs[0]);
      FreeRemovesOneLive(h, bs[0]);
      FreeAll(Free(h, bs[0]), bs[1..])
  }

  lemma {:induction false} FreeAllLive(h: Heap, bs: seq<nat>)
    requires WellFormed(h) && Distinct(bs) && forall b :: b in bs ==> b in Live(h.blocks)
    ensures WellFormed(FreeAll(h, bs)) && FreeAll(h, bs).end == h.end
    ensures Live(FreeAll(h, bs).blocks) == Live(h.blocks) - Elems(bs)
    decreases |bs|
  {
    hide Tiled, Indexed, Coalesced, Free;
    if bs != [] {
      assert bs[0] in bs && bs[0] in Live(h.blocks);
      FreeKeepsWellFormed(h, bs[0]);
      FreeRemovesOneLive(h, bs[0]);
      FreeAllLive(Free(h, bs[0]), bs[1..]);
      assert Elems(bs) == {bs[0]} + Elems(bs[1..]) by {
        assert bs == [bs[0]] + bs[1..];
      }
    }
  }

  /** Freeing the same blocks in any two orders gives the same layout. */
  lemma FreeOrderIrrelevant(h: Heap, bs: seq<nat>, cs: seq<nat>)
    requires WellFormed(h) && Distinct(bs) && Distinct(cs)
    requires forall b :: b in bs ==> b in Live(h.blocks)
    requires Elems(bs) == Elems(cs)
    ensures forall c :: c in cs ==> c in Live(h.blocks)
    ensures FreeAll(h, bs).blocks == FreeAll(h, cs).blocks
  {
    hide WellFormed, FreeAll;
    forall c | c in cs ensures c in Live(h.blocks) {
      assert c in Elems(cs);
      assert c in Elems(bs);
    }
    FreeAllLive(h, bs);
    FreeAllLive(h, cs);
    CanonicalLayout(FreeAll(h, bs), FreeAll(h, cs));
  }

  /** With nothing live, one free block spans the whole pool. */
  lemma NothingLiveOneBlock(h: Heap)
    requires WellFormed(h) && h.end > 0 && Live(h.blocks) == map[]
    ensures h.blocks == map[0 := Block(h.end - 1, true)]
  {
    assert forall b :: b in h.blocks && !h.blocks[b].free ==> b in Live(h.blocks);
    assert Next(h.blocks, 0) == h.end;
    forall c | c in h.blocks ensures c == 0 {
      assert Next(h.blocks, c) <= h.end;
    }
  }

  lemma FreeEverything(h: Heap, bs: seq<nat>)
    requires WellFormed(h) && Distinct(bs) && h.end > 0
    requires forall b :: b in bs <==> b in Live(h.blocks)
    ensures FreeAll(h, bs).blocks == map[0 := Block(h.end - 1, true)]
  {
    FreeAllLive(h, bs);
    NothingLiveOneBlock(FreeAll(h, bs));
  }

  // ---------------------------------------------------------------------------------------------
  // Conservation of bytes

  /** The blocks in physical order, from the boundary b to the sentinel. */
  ghost function Walk(blocks: Blocks, end: nat, b: nat): seq<nat>
    requires Tiled(blocks, end) && (b == end || b in blocks)
    decreases end - b
  {
    if b == end then []
    else
      assert Next(blocks, b) <= end;
      [b] + Walk(blocks, end, Next(blocks, b))
  }

  function Bytes(blocks: Blocks, bs: seq<nat>): nat
    requires forall b :: b in bs ==> b in blocks
  {
    if bs == [] then 0 else HEADER_SIZE + 16 * blocks[bs[0]].n + Bytes(blocks, bs[1..])
  }

  /** One more block in front of a walk. */
  lemma WalkMore(blocks: Blocks, end: nat, b: nat, x: nat)
    requires Tiled(blocks, end) && b in blocks && x == Next(blocks, b) && (x == end || x in blocks)
    requires forall c: nat :: c in Walk(blocks, end, x) <==> c in blocks && x <= c
    requires Distinct(Walk(blocks, end, x)) && Bytes(blocks, Walk(blocks, end, x)) == 16 * (end - x)
    ensures var w := Walk(blocks, end, b);
      && (forall c: nat :: c in w <==> c in blocks && b <= c)
      && Distinct(w)
      && Bytes(blocks, w) == 16 * (end - b)
  {
    hide Tiled;
    TiledAt(blocks, end, b);
    var w, t := Walk(blocks, end, b), Walk(blocks, end, x);
    assert w == [b] + t && w[1..] == t;
    hide Walk;
    forall c: nat ensures c in w <==> c in blocks && b <= c {
      assert c in w <==> c == b || c in t;
      if c in blocks && b < c { TiledOrder(blocks, end, b, c); }
    }
    assert b !in t;
  }

  lemma {:induction false} WalkFacts(blocks: Blocks, end: nat, b: nat)
    requires Tiled(blocks, end) && (b == end || b in blocks)
    ensures var w := Walk(blocks, end, b);
      && (forall c: nat :: c in w <==> c in blocks && b <= c)
      && Distinct(w)
      && Bytes(blocks, w) == 16 * (end - b)
    decreases end - b
  {
    if b == end {
      forall c | c in blocks ensures c < end { TiledAt(blocks, end, c); }
    } else {
      var x := Next(blocks, b);
      TiledAt(blocks, end, b);
      WalkFacts(blocks, end, x);
      WalkMore(blocks, end, b, x);
    }
  }

  /** Payloads plus headers of all blocks, each counted once, always sum to the whole pool. */
  lemma BytesConserved(h: Heap)
    requires WellFormed(h)
    ensures var w := if h.end == 0 then [] else Walk(h.blocks, h.end, 0);
      && (forall c: nat :: c in w <==> c in h.blocks) && Distinct(w)
      && Bytes(h.blocks, w) == 16 * h.end
  {
    if h.end > 0 {
      WalkFacts(h.blocks, h.end, 0);
    }
  }

  // ---------------------------------------------------------------------------------------------
  // Runs

  datatype Op = AllocOp(size: nat) | FreeOp(ptr: nat)

  /** What the source demands of a caller: a size that does not overflow, a pointer that is live. */
  predicate Enabled(h: Heap, op: Op) {
    match op
    case AllocOp(size) => size + ALIGN <= USIZE_MAX
    case FreeOp(ptr) => ptr >= 1 && ptr - 1 in Live(h.blocks)
  }

  ghost function Step(h: Heap, op: Op): Heap
    requires WellFormed(h) && Enabled(h, op)
  {
    match op
    case AllocOp(size) => Alloc(h, size).1
    case FreeOp(ptr) => Free(h, ptr - 1)
  }

  /** The run `ops` leads from g to h. */
  ghost predicate Run(g: Heap, ops: seq<Op>, h: Heap)
    decreases |ops|
  {
    if ops == [] then g == h
    else WellFormed(g) && Enabled(g, ops[0]) && Run(Step(g, ops[0]), ops[1..], h)
  }

  /** Every run keeps the pool tiled, coalesced and indexed, and every byte accounted for. */
  lemma {:induction false} RunKeepsWellFormed(g: Heap, ops: seq<Op>, h: Heap)
    requires WellFormed(g) && Run(g, ops, h)
    ensures WellFormed(h) && h.end == g.end
    decreases |ops|
  {
    hide WellFormed;
    if ops != [] {
      StepKeepsWellFormed(g, ops[0]);
      RunKeepsWellFormed(Step(g, ops[0]), ops[1..], h);
    }
  }

  lemma StepKeepsWellFormed(g: Heap, op: Op)
    requires WellFormed(g) && Enabled(g, op)
    ensures WellFormed(Step(g, op)) && Step(g, op).end == g.end
  {
    hide WellFormed, Alloc, Free;
    match op
    case AllocOp(size) => AllocKeepsWellFormed(g, size);
    case FreeOp(ptr) => LiveEntry(g.blocks, ptr - 1); FreeKeepsWellFormed(g, ptr - 1);
  }

  /** Two runs over the same pool that leave the same blocks live leave the same layout. */
  lemma RunsAreCanonical(g: Heap, ops: seq<Op>, h: Heap, ops': seq<Op>, h': Heap)
    requires WellFormed(g) && Run(g, ops, h) && Run(g, ops', h') && Live(h.blocks) == Live(h'.blocks)
    ensures h.blocks == h'.blocks
  {
    RunKeepsWellFormed(g, ops, h);
    RunKeepsWellFormed(g, ops', h');
    CanonicalLayout(h, h');
  }

  /** A run that has freed everything it allocated is back to one free block of the original payload. */
  lemma RunThatFreesAll(g: Heap, n: nat, ops: seq<Op>, h: Heap)
    requires WellFormed(g) && g.blocks == map[0 := Block(n, true)] && g.end == n + 1
    requires Run(g, ops, h) && Live(h.blocks) == map[]
    ensures h.blocks == map[0 := Block(n, true)]
    ensures Bytes(h.blocks, [0]) == HEADER_SIZE + 16 * n
  {
    hide WellFormed, Run, Live;
    RunKeepsWellFormed(g, ops, h);
    NothingLiveOneBlock(h);
  }

  /** Across a run, a block that is never freed stays where it is, with its size. */
  lemma {:induction false} RunKeepsUnfreed(g: Heap, ops: seq<Op>, h: Heap, b: nat)
    requires WellFormed(g) && Run(g, ops, h) && b in Live(g.blocks)
    requires FreeOp(b + 1) !in ops
    ensures b in Live(h.blocks) && Live(h.blocks)[b] == Live(g.blocks)[b]
    decreases |ops|
  {
    hide WellFormed, Alloc, Free, Live;
    if ops != [] {
      var g1 := Step(g, ops[0]);
      StepKeepsWellFormed(g, ops[0]);
      match ops[0] {
        case AllocOp(size) => AllocAddsOneLive(g, size);
        case FreeOp(ptr) => assert ops[0] in ops; LiveEntry(g.blocks, ptr - 1); FreeRemovesOneLive(g, ptr - 1);
      }
      RunKeepsUnfreed(g1, ops[1..], h, b);
    }
  }
}
