/** The abstract TLSF heap: what a sequence of `alloc` and `free` calls does to the blocks of the pool
    and to the order of the free lists, without headers, links or bitmaps.

    Addresses are counted in 16-byte units from the pool base. A block at unit b has its header in
    unit b and its payload in units b+1 .. b+n; `end` is the unit of the zero-size sentinel. */
module AbstractHeap {
  import opened Bins
  import opened Lists

  datatype Block = Block(n: nat, free: bool)

  type Blocks = map<nat, Block>

  datatype Heap = Heap(blocks: Blocks, end: nat, bins: seq<seq<nat>>)

  const MAX_UNITS: nat := 0x4_0000
  const NONE: int := -1

  function Next(blocks: Blocks, b: nat): nat
    requires b in blocks
  {
    b + 1 + blocks[b].n
  }

  /** The bin of a block with n payload units. */
  function UnitBin(n: nat): nat {
    if n == 0 then 0 else BinOf(16 * n)
  }

  // ---------------------------------------------------------------------------------------------
  // Well-formed heaps

  /** Blocks start at the base, abut, do not overlap and end at the sentinel. */
  ghost predicate Tiled(blocks: Blocks, end: nat) {
    && (if end == 0 then blocks == map[] else 0 in blocks)
    && end <= MAX_UNITS
    && (forall b {:trigger Next(blocks, b)} :: b in blocks ==>
          blocks[b].n >= 1 && Next(blocks, b) <= end && (Next(blocks, b) == end || Next(blocks, b) in blocks))
    && (forall b, c {:trigger Next(blocks, b), c in blocks} ::
          b in blocks && c in blocks && b < c ==> Next(blocks, b) <= c)
  }

  /** No two neighbouring blocks are both free. */
  ghost predicate Coalesced(blocks: Blocks) {
    forall b {:trigger Next(blocks, b)} ::
      b in blocks && blocks[b].free && Next(blocks, b) in blocks ==> !blocks[Next(blocks, b)].free
  }

  /** Lists hold free blocks only, each on the list of its own bin and at most once. */
  ghost predicate Members(blocks: Blocks, bins: seq<seq<nat>>) {
    && |bins| == BIN_COUNT
    && (forall k :: 0 <= k < BIN_COUNT ==> Distinct(bins[k]))
    && (forall k, b :: 0 <= k < BIN_COUNT && b in bins[k] ==>
          b in blocks && blocks[b].free && UnitBin(blocks[b].n) == k)
  }

  /** Block b is on its list exactly once if and only if it is free; `x` is exempt, and on no list. */
  ghost predicate Indexed(blocks: Blocks, bins: seq<seq<nat>>, x: int) {
    && Members(blocks, bins)
    && (forall k, b :: 0 <= k < BIN_COUNT && b in bins[k] ==> b != x)
    && (forall b :: b in blocks && blocks[b].free && b != x ==>
          UnitBin(blocks[b].n) < BIN_COUNT && b in bins[UnitBin(blocks[b].n)])
  }

  ghost predicate WellFormed(h: Heap) {
    && Tiled(h.blocks, h.end)
    && Coalesced(h.blocks)
    && Indexed(h.blocks, h.bins, NONE)
  }

  /** The live allocations: where each one starts and how many payload units it has. */
  function Live(blocks: Blocks): map<nat, nat> {
    map b | b in blocks && !blocks[b].free :: blocks[b].n
  }

  // ---------------------------------------------------------------------------------------------
  // Operations

  /** Push block b, of n payload units, at the front of its list. */
  function Filed(bins: seq<seq<nat>>, b: nat, n: nat): seq<seq<nat>> {
    if UnitBin(n) < |bins| then bins[UnitBin(n) := [b] + bins[UnitBin(n)]] else bins
  }

  /** Take block b, of n payload units, off its list. */
  function Unfiled(bins: seq<seq<nat>>, b: nat, n: nat): seq<seq<nat>> {
    if UnitBin(n) < |bins| then bins[UnitBin(n) := Without(bins[UnitBin(n)], b)] else bins
  }

  /** The lowest bin from k on that has a block; |bins| when there is none. */
  function FirstBin(bins: seq<seq<nat>>, k: nat): (r: nat)
    requires k <= |bins|
    ensures k <= r <= |bins|
    ensures r < |bins| ==> bins[r] != []
    ensures forall j :: k <= j < r ==> bins[j] == []
    decreases |bins| - k
  {
    if k == |bins| then k
    else if bins[k] != [] then k
    else FirstBin(bins, k + 1)
  }

  function Adjusted(size: nat): nat {
    if AlignUp(size) < MIN_PAYLOAD then MIN_PAYLOAD else AlignUp(size)
  }

  /** The block `alloc` takes: the front of the first list at or above the searched bin. */
  function Suitable(bins: seq<seq<nat>>, size: nat): Option<nat>
    requires |bins| == BIN_COUNT && MIN_PAYLOAD <= size <= USIZE_MAX
  {
    var k := Flat(MappingSearch(size));
    if k > BIN_COUNT then None
    else
      var r := FirstBin(bins, k);
      if r == BIN_COUNT then None else Some(bins[r][0])
  }

  function SetFree(blocks: Blocks, b: nat, free: bool): Blocks
    requires b in blocks
  {
    blocks[b := Block(blocks[b].n, free)]
  }

  /** Block b keeps `need` units; the rest becomes a header and a free block. */
  function Split(blocks: Blocks, b: nat, need: nat): Blocks
    requires b in blocks && need + 2 <= blocks[b].n
  {
    blocks[b := Block(need, blocks[b].free)][b + 1 + need := Block(blocks[b].n - need - 1, true)]
  }

  /** Block b takes in its right neighbour, header and payload. */
  function Absorb(blocks: Blocks, b: nat): Blocks
    requires b in blocks && Next(blocks, b) in blocks
  {
    var q := Next(blocks, b);
    (map c | c in blocks && c != q :: blocks[c])[b := Block(blocks[b].n + 1 + blocks[q].n, blocks[b].free)]
  }

  /** Block b, taken off its list, gives up what lies beyond `need` units, unless that cannot hold a
      header and a minimal payload. */
  function Trim(h: Heap, b: nat, need: nat): (r: Heap)
    requires b in h.blocks && need <= h.blocks[b].n
    ensures b in r.blocks
  {
    var n := h.blocks[b].n;
    if n - need >= 2 then
      Heap(Split(h.blocks, b, need), h.end, Filed(h.bins, b + 1 + need, n - need - 1))
    else h
  }

  /** Block b, taken off its list, becomes a live block of `need` units, or all its units. */
  function Carve(h: Heap, b: nat, need: nat): Heap
    requires b in h.blocks && need <= h.blocks[b].n
  {
    var t := Trim(h, b, need);
    t.(blocks := SetFree(t.blocks, b, false))
  }

  /** `alloc(size)`: the payload pointer, in units, and the heap after the call. */
  ghost function Alloc(h: Heap, size: nat): (r: (Option<nat>, Heap))
    requires WellFormed(h) && size + ALIGN <= USIZE_MAX
    ensures r.0.Some? ==> r.0.value >= 1 && r.0.value - 1 in h.blocks && h.blocks[r.0.value - 1].free
    ensures r.0.Some? ==> r.0.value - 1 in r.1.blocks && !r.1.blocks[r.0.value - 1].free
  {
    if size == 0 then (None, h)
    else match Suitable(h.bins, Adjusted(size))
      case None => (None, h)
      case Some(b) =>
        SuitableIsLargeEnough(h, Adjusted(size));
        var n := h.blocks[b].n;
        (Some(b + 1), Carve(h.(bins := Unfiled(h.bins, b, n)), b, Adjusted(size) / 16))
  }

  ghost predicate IsFreePred(blocks: Blocks, p: nat, b: nat) {
    p in blocks && blocks[p].free && Next(blocks, p) == b
  }

  ghost function MergeNext(h: Heap, b: nat): Heap
    requires b in h.blocks
  {
    var q := Next(h.blocks, b);
    if q in h.blocks && h.blocks[q].free then
      Heap(Absorb(h.blocks, b), h.end, Unfiled(h.bins, q, h.blocks[q].n))
    else h
  }

  /** The merged block and the heap in which it has taken in b. */
  ghost function MergePrev(h: Heap, b: nat): (r: (nat, Heap))
    requires b in h.blocks
    ensures r.0 in r.1.blocks
  {
    if exists p: nat :: IsFreePred(h.blocks, p, b) then
      var p: nat :| IsFreePred(h.blocks, p, b);
      (p, Heap(Absorb(h.blocks, p), h.end, Unfiled(h.bins, p, h.blocks[p].n)))
    else (b, h)
  }

  /** `free` of the block at b: merged with its free neighbours, then filed. */
  ghost function Free(h: Heap, b: nat): Heap
    requires b in h.blocks
  {
    var h1 := MergeNext(h.(blocks := SetFree(h.blocks, b, true)), b);
    var (p, h2) := MergePrev(h1, b);
    h2.(bins := Filed(h2.bins, p, h2.blocks[p].n))
  }

  lemma SuitableIsLargeEnough(h: Heap, size: nat)
    requires Indexed(h.blocks, h.bins, NONE) && Tiled(h.blocks, h.end)
    requires MIN_PAYLOAD <= size <= USIZE_MAX && Suitable(h.bins, size).Some?
    ensures var b := Suitable(h.bins, size).value;
      b in h.blocks && h.blocks[b].free && size <= 16 * h.blocks[b].n
  {
    var k := Flat(MappingSearch(size));
    var r := FirstBin(h.bins, k);
    var b := h.bins[r][0];
    assert b in h.bins[r];
    assert Next(h.blocks, b) <= h.end;
    SearchIsExact(size, 16 * h.blocks[b].n);
    SearchSizeBounds(size);
  }

  // ---------------------------------------------------------------------------------------------
  // Every operation keeps a heap well formed

  lemma TiledAt(blocks: Blocks, end: nat, c: nat)
    requires Tiled(blocks, end) && c in blocks
    ensures blocks[c].n >= 1 && c < Next(blocks, c) <= end <= MAX_UNITS && 0 in blocks
    ensures Next(blocks, c) == end || Next(blocks, c) in blocks
  {
    assert Next(blocks, c) <= end;
  }

  lemma TiledOrder(blocks: Blocks, end: nat, c: nat, d: nat)
    requires Tiled(blocks, end) && c in blocks && d in blocks && c < d
    ensures Next(blocks, c) <= d
  {
  }

  lemma TiledFrom(blocks: Blocks, end: nat)
    requires 0 in blocks && 0 < end <= MAX_UNITS
    requires forall b {:trigger Next(blocks, b)} :: b in blocks ==>
               blocks[b].n >= 1 && Next(blocks, b) <= end && (Next(blocks, b) == end || Next(blocks, b) in blocks)
    requires forall b, c {:trigger Next(blocks, b), c in blocks} ::
               b in blocks && c in blocks && b < c ==> Next(blocks, b) <= c
    ensures Tiled(blocks, end)
  {
  }

  lemma SplitTiled(blocks: Blocks, end: nat, b: nat, need: nat)
    requires Tiled(blocks, end) && b in blocks && 1 <= need && need + 2 <= blocks[b].n
    ensures Tiled(Split(blocks, b, need), end)
    ensures b + 1 + need !in blocks
  {
    hide Tiled, Split, Next;
    var r := Split(blocks, b, need);
    SplitBlock(blocks, end, b, need, b);
    forall c | c in r ensures r[c].n >= 1 && Next(r, c) <= end && (Next(r, c) == end || Next(r, c) in r) {
      SplitBlock(blocks, end, b, need, c);
    }
    forall c, d | c in r && d in r && c < d ensures Next(r, c) <= d {
      SplitOrder(blocks, end, b, need, c, d);
    }
    TiledFrom(r, end);
  }

  lemma SplitBlock(blocks: Blocks, end: nat, b: nat, need: nat, c: nat)
    requires Tiled(blocks, end) && b in blocks && 1 <= need && need + 2 <= blocks[b].n
    ensures var r := Split(blocks, b, need);
      && b in r && 0 in r && 0 < end <= MAX_UNITS && b + 1 + need !in blocks
      && (c in r ==> r[c].n >= 1 && Next(r, c) <= end && (Next(r, c) == end || Next(r, c) in r))
  {
    hide Tiled;
    var q := b + 1 + need;
    TiledAt(blocks, end, b);
    if q in blocks { TiledOrder(blocks, end, b, q); }
    if c in blocks { TiledAt(blocks, end, c); }
  }

  lemma SplitOrder(blocks: Blocks, end: nat, b: nat, need: nat, c: nat, d: nat)
    requires Tiled(blocks, end) && b in blocks && 1 <= need && need + 2 <= blocks[b].n
    requires c in Split(blocks, b, need) && d in Split(blocks, b, need) && c < d
    ensures Next(Split(blocks, b, need), c) <= d
  {
    hide Tiled;
    var q := b + 1 + need;
    if c == q || c == b {
      if d != q && b < d { TiledOrder(blocks, end, b, d); }
    } else if d == q {
      if c > b { TiledOrder(blocks, end, b, c); }
      if c < b { TiledOrder(blocks, end, c, b); }
    } else {
      TiledOrder(blocks, end, c, d);
    }
  }

  lemma AbsorbTiled(blocks: Blocks, end: nat, b: nat)
    requires Tiled(blocks, end) && b in blocks && Next(blocks, b) in blocks
    ensures Tiled(Absorb(blocks, b), end)
    ensures Next(Absorb(blocks, b), b) == Next(blocks, Next(blocks, b))
  {
    hide Tiled, Absorb, Next;
    var r := Absorb(blocks, b);
    AbsorbBlock(blocks, end, b, b);
    forall c | c in r ensures r[c].n >= 1 && Next(r, c) <= end && (Next(r, c) == end || Next(r, c) in r) {
      AbsorbBlock(blocks, end, b, c);
    }
    forall c, d | c in r && d in r && c < d ensures Next(r, c) <= d {
      AbsorbOrder(blocks, end, b, c, d);
    }
    TiledFrom(r, end);
  }

  lemma AbsorbBlock(blocks: Blocks, end: nat, b: nat, c: nat)
    requires Tiled(blocks, end) && b in blocks && Next(blocks, b) in blocks
    ensures var r, q := Absorb(blocks, b), Next(blocks, b);
      && b in r && Next(r, b) == Next(blocks, q) && 0 in r && 0 < end <= MAX_UNITS
      && (c in r ==> r[c].n >= 1 && Next(r, c) <= end && (Next(r, c) == end || Next(r, c) in r))
  {
    hide Tiled;
    var q := Next(blocks, b);
    TiledAt(blocks, end, b);
    TiledAt(blocks, end, q);
    if c in blocks {
      TiledAt(blocks, end, c);
      if c < b { TiledOrder(blocks, end, c, b); }
      if b < c { TiledOrder(blocks, end, b, c); }
    }
  }

  lemma AbsorbOrder(blocks: Blocks, end: nat, b: nat, c: nat, d: nat)
    requires Tiled(blocks, end) && b in blocks && Next(blocks, b) in blocks
    requires c in Absorb(blocks, b) && d in Absorb(blocks, b) && c < d
    ensures Next(Absorb(blocks, b), c) <= d
  {
    hide Tiled;
    TiledOrder(blocks, end, c, d);
    if c == b && Next(blocks, b) < d { TiledOrder(blocks, end, Next(blocks, b), d); }
  }

  /** Merging undoes splitting. */
  lemma AbsorbUndoesSplit(blocks: Blocks, end: nat, b: nat, need: nat)
    requires Tiled(blocks, end) && b in blocks && 1 <= need && need + 2 <= blocks[b].n
    ensures Next(Split(blocks, b, need), b) in Split(blocks, b, need)
    ensures Absorb(Split(blocks, b, need), b) == blocks
  {
    SplitTiled(blocks, end, b, need);
  }

  lemma FileIndexed(blocks: Blocks, end: nat, bins: seq<seq<nat>>, b: nat)
    requires Tiled(blocks, end) && Indexed(blocks, bins, b) && b in blocks && blocks[b].free
    ensures UnitBin(blocks[b].n) < BIN_COUNT
    ensures Indexed(blocks, Filed(bins, b, blocks[b].n), NONE)
  {
    assert Next(blocks, b) <= end;
    MappingInRange(16 * blocks[b].n);
    var k := UnitBin(blocks[b].n);
    assert b !in bins[k];
    var r := Filed(bins, b, blocks[b].n);
    assert forall c :: c in r[k] <==> c == b || c in bins[k];
  }

  lemma UnfileIndexed(blocks: Blocks, end: nat, bins: seq<seq<nat>>, b: nat)
    requires Tiled(blocks, end) && Indexed(blocks, bins, NONE) && b in blocks && blocks[b].free
    ensures Indexed(blocks, Unfiled(bins, b, blocks[b].n), b)
  {
    WithoutFacts(bins[UnitBin(blocks[b].n)], b);
  }

  lemma UnfileMembers(blocks: Blocks, bins: seq<seq<nat>>, b: nat)
    requires Members(blocks, bins) && b in blocks && blocks[b].free
    ensures Members(blocks, Unfiled(bins, b, blocks[b].n))
  {
    hide BinOf;
    if UnitBin(blocks[b].n) < |bins| {
      WithoutFacts(bins[UnitBin(blocks[b].n)], b);
    }
  }

  /** Every block but the first has a left neighbour. */
  lemma {:induction false} PredExists(blocks: Blocks, end: nat, c: nat, b: nat) returns (p: nat)
    requires Tiled(blocks, end) && c in blocks && b in blocks && c < b
    ensures p in blocks && Next(blocks, p) == b
    decreases b - c
  {
    var n := Next(blocks, c);
    assert n <= b < Next(blocks, b) <= end;
    if n == b {
      p := c;
    } else {
      p := PredExists(blocks, end, n, b);
    }
  }

  /** Absorbing a filed neighbour: block b exempt and free, q its filed free right neighbour. */
  lemma AbsorbNextIndexed(blocks: Blocks, end: nat, bins: seq<seq<nat>>, b: nat)
    requires Tiled(blocks, end) && Indexed(blocks, bins, b) && b in blocks && blocks[b].free
    requires Next(blocks, b) in blocks && blocks[Next(blocks, b)].free
    ensures var q := Next(blocks, b);
      Indexed(Absorb(blocks, b), Unfiled(bins, q, blocks[q].n), b)
  {
    var q := Next(blocks, b);
    WithoutFacts(bins[UnitBin(blocks[q].n)], q);
  }

  lemma AbsorbPrevIndexed(blocks: Blocks, end: nat, bins: seq<seq<nat>>, p: nat, b: nat)
    requires Tiled(blocks, end) && Indexed(blocks, bins, b) && b in blocks && blocks[b].free
    requires IsFreePred(blocks, p, b)
    ensures Indexed(Absorb(blocks, p), Unfiled(bins, p, blocks[p].n), p)
  {
    WithoutFacts(bins[UnitBin(blocks[p].n)], p);
  }

  lemma UniquePred(blocks: Blocks, end: nat, p: nat, q: nat, b: nat)
    requires Tiled(blocks, end) && IsFreePred(blocks, p, b) && q in blocks && Next(blocks, q) == b
    ensures p == q
  {
  }

  /** Midway through `free`: block b is free but not filed yet. */
  ghost predicate Pending(h: Heap, b: nat) {
    Tiled(h.blocks, h.end) && Indexed(h.blocks, h.bins, b) && b in h.blocks && h.blocks[b].free
  }

  /** Only block b may still have a free neighbour on its left or, unless `leftOnly`, on its right. */
  ghost predicate CoalescedBut(blocks: Blocks, b: nat, leftOnly: bool) {
    forall c {:trigger Next(blocks, c)} ::
      c in blocks && blocks[c].free && Next(blocks, c) in blocks && blocks[Next(blocks, c)].free ==>
        Next(blocks, c) == b || (!leftOnly && c == b)
  }

  lemma SetFreeNext(blocks: Blocks, b: nat, free: bool)
    requires b in blocks
    ensures SetFree(blocks, b, free).Keys == blocks.Keys
    ensures forall c {:trigger Next(blocks, c)} {:trigger Next(SetFree(blocks, b, free), c)} ::
              c in blocks ==>
              Next(SetFree(blocks, b, free), c) == Next(blocks, c) && SetFree(blocks, b, free)[c].n == blocks[c].n
  {
  }

  /** Tiling is a matter of the blocks' sizes alone. */
  lemma TiledBySizes(blocks: Blocks, r: Blocks, end: nat)
    requires Tiled(blocks, end) && r.Keys == blocks.Keys
    requires forall c {:trigger Next(r, c)} :: c in r ==> Next(r, c) == Next(blocks, c) && r[c].n == blocks[c].n
    ensures Tiled(r, end)
  {
    assert forall c :: c in r <==> c in blocks by {
      forall c ensures c in r <==> c in blocks { assert c in r.Keys <==> c in blocks.Keys; }
    }
  }

  lemma SetFreeTiled(blocks: Blocks, end: nat, b: nat, free: bool)
    requires Tiled(blocks, end) && b in blocks
    ensures Tiled(SetFree(blocks, b, free), end)
    ensures forall c {:trigger Next(blocks, c)} {:trigger Next(SetFree(blocks, b, free), c)} ::
              c in blocks ==> Next(SetFree(blocks, b, free), c) == Next(blocks, c)
  {
    SetFreeNext(blocks, b, free);
    hide SetFree, Tiled, Next;
    TiledBySizes(blocks, SetFree(blocks, b, free), end);
  }

  lemma PendingMembers(h: Heap, b: nat)
    requires Pending(h, b)
    ensures Tiled(h.blocks, h.end) && Members(h.blocks, h.bins) && forall k :: 0 <= k < BIN_COUNT ==> b !in h.bins[k]
  {
  }

  lemma SetFreePending(h: Heap, b: nat)
    requires WellFormed(h) && b in h.blocks && !h.blocks[b].free
    ensures var h0 := h.(blocks := SetFree(h.blocks, b, true));
      Pending(h0, b) && CoalescedBut(h0.blocks, b, false)
  {
    SetFreeTiled(h.blocks, h.end, b, true);
    SetFreeIndexed(h.blocks, h.bins, b);
  }

  lemma SetFreeIndexed(blocks: Blocks, bins: seq<seq<nat>>, b: nat)
    requires b in blocks
    ensures !blocks[b].free && Indexed(blocks, bins, NONE) ==> Indexed(SetFree(blocks, b, true), bins, b)
    ensures Indexed(blocks, bins, b) ==> Indexed(SetFree(blocks, b, false), bins, NONE)
  {
  }

  lemma MergeNextPending(h: Heap, b: nat)
    requires Pending(h, b) && CoalescedBut(h.blocks, b, false)
    ensures Pending(MergeNext(h, b), b) && CoalescedBut(MergeNext(h, b).blocks, b, true)
  {
    var q, r := Next(h.blocks, b), MergeNext(h, b);
    if q in h.blocks && h.blocks[q].free {
      AbsorbTiled(h.blocks, h.end, b);
      AbsorbNextIndexed(h.blocks, h.end, h.bins, b);
      AbsorbNextCoalesced(h.blocks, h.end, b);
    }
  }

  lemma AbsorbNextCoalesced(blocks: Blocks, end: nat, b: nat)
    requires Tiled(blocks, end) && b in blocks && blocks[b].free && CoalescedBut(blocks, b, false)
    requires Next(blocks, b) in blocks && blocks[Next(blocks, b)].free
    ensures CoalescedBut(Absorb(blocks, b), b, true)
  {
    var q, r := Next(blocks, b), Absorb(blocks, b);
    assert Next(blocks, q) == Next(r, b);
    forall c | c in r
      ensures r[c].free && Next(r, c) in r && r[Next(r, c)].free ==> Next(r, c) == b
    {
      assert c != b ==> Next(blocks, c) == Next(r, c);
    }
  }

  lemma AbsorbPrevCoalesced(blocks: Blocks, end: nat, p: nat, b: nat)
    requires Tiled(blocks, end) && b in blocks && blocks[b].free && CoalescedBut(blocks, b, true)
    requires IsFreePred(blocks, p, b)
    ensures Coalesced(Absorb(blocks, p))
  {
    var r := Absorb(blocks, p);
    forall c | c in r && r[c].free && Next(r, c) in r ensures !r[Next(r, c)].free {
      if c == p {
        assert Next(blocks, b) == Next(r, p);
      } else {
        assert Next(blocks, c) == Next(r, c) != b;
      }
    }
  }

  lemma MergePrevPending(h: Heap, b: nat)
    requires Pending(h, b) && CoalescedBut(h.blocks, b, true)
    ensures var (p, r) := MergePrev(h, b);
      Pending(r, p) && Coalesced(r.blocks)
  {
    var (p, r) := MergePrev(h, b);
    if p != b {
      AbsorbTiled(h.blocks, h.end, p);
      AbsorbPrevIndexed(h.blocks, h.end, h.bins, p, b);
      AbsorbPrevCoalesced(h.blocks, h.end, p, b);
    } else {
      forall c | c in h.blocks && h.blocks[c].free && Next(h.blocks, c) == b ensures false {
        assert IsFreePred(h.blocks, c, b);
      }
    }
  }

  lemma FreeKeepsWellFormed(h: Heap, b: nat)
    requires WellFormed(h) && b in h.blocks && !h.blocks[b].free
    ensures WellFormed(Free(h, b)) && Free(h, b).end == h.end
  {
    var h0 := h.(blocks := SetFree(h.blocks, b, true));
    SetFreePending(h, b);
    MergeNextPending(h0, b);
    var (p, h2) := MergePrev(MergeNext(h0, b), b);
    MergePrevPending(MergeNext(h0, b), b);
    FileIndexed(h2.blocks, h2.end, h2.bins, p);
  }

  lemma ListedMeansBlock(blocks: Blocks, bins: seq<seq<nat>>)
    requires Members(blocks, bins)
    ensures forall k :: 0 <= k < BIN_COUNT && bins[k] != [] ==> bins[k][0] in blocks
  {
    forall k | 0 <= k < BIN_COUNT && bins[k] != [] ensures bins[k][0] in blocks {
      assert bins[k][0] in bins[k];
    }
  }

  /** A pool that is one free block, before and after that block is filed. */
  lemma FreshPool(n: nat, bins: seq<seq<nat>>)
    requires 1 <= n < MAX_UNITS && WellFormed(Heap(map[], 0, bins))
    ensures var blocks := map[0 := Block(n, true)];
      && Tiled(blocks, n + 1) && Members(blocks, bins) && (forall k :: 0 <= k < BIN_COUNT ==> bins[k] == [])
      && UnitBin(n) < BIN_COUNT && WellFormed(Heap(blocks, n + 1, Filed(bins, 0, n)))
  {
    hide BinOf;
    var blocks := map[0 := Block(n, true)];
    ListedMeansBlock(map[], bins);
    assert Next(blocks, 0) == n + 1;
    FileIndexed(blocks, n + 1, bins, 0);
  }

  lemma LiveEntry(blocks: Blocks, b: nat)
    ensures b in Live(blocks) <==> b in blocks && !blocks[b].free
    ensures b in Live(blocks) ==> Live(blocks)[b] == blocks[b].n
  {
  }

  lemma SetFreeLive(blocks: Blocks, b: nat)
    requires b in blocks
    ensures Live(SetFree(blocks, b, true)) == Live(blocks) - {b}
  {
  }

  /** Merging free blocks touches no live one. */
  lemma MergesKeepLive(h: Heap, b: nat)
    requires b in h.blocks && h.blocks[b].free
    ensures b in MergeNext(h, b).blocks && MergeNext(h, b).blocks[b].free
    ensures Live(MergeNext(h, b).blocks) == Live(h.blocks)
    ensures Live(MergePrev(h, b).1.blocks) == Live(h.blocks)
  {
  }

  /** The two merges of `free`, one after the other. */
  lemma FreeStages(h: Heap, b: nat)
    requires Pending(h, b) && CoalescedBut(h.blocks, b, false)
    ensures var h1 := MergeNext(h, b);
      && Pending(h1, b) && Live(h1.blocks) == Live(h.blocks)
      && var (p, h2) := MergePrev(h1, b);
      && Pending(h2, p) && Live(h2.blocks) == Live(h.blocks)
  {
    hide Tiled, Indexed, CoalescedBut, MergeNext, MergePrev, Live;
    MergeNextPending(h, b);
    MergesKeepLive(h, b);
    MergePrevPending(MergeNext(h, b), b);
    MergesKeepLive(MergeNext(h, b), b);
  }

  lemma FileReady(h: Heap, b: nat)
    requires Pending(h, b)
    ensures Tiled(h.blocks, h.end) && Members(h.blocks, h.bins)
    ensures UnitBin(h.blocks[b].n) < BIN_COUNT && b !in h.bins[UnitBin(h.blocks[b].n)]
  {
    FileIndexed(h.blocks, h.end, h.bins, b);
  }

  lemma SplitPending(h: Heap, b: nat, need: nat)
    requires Pending(h, b) && Coalesced(h.blocks) && 1 <= need && need + 2 <= h.blocks[b].n
    ensures var q, s := b + 1 + need, Split(h.blocks, b, need);
      && Pending(Heap(s, h.end, Filed(h.bins, q, s[q].n)), b)
      && CoalescedBut(s, q, true)
  {
    hide Tiled, Indexed, Filed, Next, UnitBin;
    var q, s := b + 1 + need, Split(h.blocks, b, need);
    SplitTiled(h.blocks, h.end, b, need);
    SplitIndexed(h.blocks, h.end, h.bins, b, need);
    forall c | c in s
      ensures s[c].free && Next(s, c) in s && s[Next(s, c)].free ==> Next(s, c) == q
    {
      SplitNeighbour(h.blocks, b, need, c);
    }
  }

  lemma SplitNeighbour(blocks: Blocks, b: nat, need: nat, c: nat)
    requires Coalesced(blocks) && b in blocks && blocks[b].free && need + 2 <= blocks[b].n
    requires c in Split(blocks, b, need)
    ensures var q, s := b + 1 + need, Split(blocks, b, need);
      s[c].free && Next(s, c) in s && s[Next(s, c)].free ==> Next(s, c) == q
  {
    var q, s := b + 1 + need, Split(blocks, b, need);
    assert c == q ==> Next(s, c) == Next(blocks, b);
    assert c != q && c != b ==> Next(s, c) == Next(blocks, c);
  }

  /** After a split the remainder has a bin and is on no list yet. */
  lemma SplitMembers(blocks: Blocks, end: nat, bins: seq<seq<nat>>, b: nat, need: nat)
    requires Tiled(blocks, end) && Indexed(blocks, bins, b) && b in blocks && blocks[b].free
    requires 1 <= need && need + 2 <= blocks[b].n
    ensures var q, s := b + 1 + need, Split(blocks, b, need);
      && Tiled(s, end) && Members(s, bins) && UnitBin(s[q].n) < BIN_COUNT && q !in bins[UnitBin(s[q].n)]
  {
    var q, s := b + 1 + need, Split(blocks, b, need);
    SplitTiled(blocks, end, b, need);
    assert Next(s, q) <= end;
    MappingInRange(16 * s[q].n);
  }

  lemma SplitIndexed(blocks: Blocks, end: nat, bins: seq<seq<nat>>, b: nat, need: nat)
    requires Tiled(blocks, end) && Indexed(blocks, bins, b) && b in blocks && blocks[b].free
    requires 1 <= need && need + 2 <= blocks[b].n
    ensures var q, s := b + 1 + need, Split(blocks, b, need);
      UnitBin(s[q].n) < BIN_COUNT && Indexed(s, Filed(bins, q, s[q].n), b)
  {
    hide UnitBin, Tiled;
    var q, s := b + 1 + need, Split(blocks, b, need);
    SplitMembers(blocks, end, bins, b, need);
    var k := UnitBin(s[q].n);
    assert forall c :: c in Filed(bins, q, s[q].n)[k] <==> c == q || c in bins[k];
  }

  /** Marking the pending block used restores a well-formed heap. */
  lemma MarkUsedWellFormed(h: Heap, b: nat, q: nat)
    requires Pending(h, b) && CoalescedBut(h.blocks, q, true)
    requires q == b || Next(h.blocks, b) == q
    ensures WellFormed(h.(blocks := SetFree(h.blocks, b, false)))
  {
    SetFreeTiled(h.blocks, h.end, b, false);
    SetFreeIndexed(h.blocks, h.bins, b);
    var r := SetFree(h.blocks, b, false);
    forall c | c in r && r[c].free && Next(r, c) in r ensures !r[Next(r, c)].free {
      assert Next(h.blocks, c) == Next(r, c);
    }
  }

  lemma TrimPending(h: Heap, b: nat, need: nat)
    requires Pending(h, b) && Coalesced(h.blocks) && 1 <= need <= h.blocks[b].n
    ensures var t := Trim(h, b, need);
      && Pending(t, b) && (CoalescedBut(t.blocks, b, true) || CoalescedBut(t.blocks, b + 1 + need, true))
      && Live(t.blocks) == Live(h.blocks) && b !in Live(h.blocks)
      && (forall k :: 0 <= k < BIN_COUNT ==> b !in t.bins[k])
  {
    if h.blocks[b].n - need >= 2 {
      SplitPending(h, b, need);
      SplitLive(h.blocks, h.end, b, need);
    }
  }

  lemma SplitLive(blocks: Blocks, end: nat, b: nat, need: nat)
    requires Tiled(blocks, end) && b in blocks && blocks[b].free && 1 <= need && need + 2 <= blocks[b].n
    ensures Live(Split(blocks, b, need)) == Live(blocks)
  {
    SplitTiled(blocks, end, b, need);
  }

  lemma CarveKeepsWellFormed(h: Heap, b: nat, need: nat)
    requires Pending(h, b) && Coalesced(h.blocks) && 1 <= need <= h.blocks[b].n
    ensures WellFormed(Carve(h, b, need))
  {
    hide UnitBin, Tiled, Indexed, Filed, Coalesced, CoalescedBut;
    var t := Trim(h, b, need);
    TrimPending(h, b, need);
    if h.blocks[b].n - need >= 2 {
      SplitPending(h, b, need);
      MarkUsedWellFormed(t, b, b + 1 + need);
    } else {
      CoalescedWeaken(h.blocks, b);
      MarkUsedWellFormed(t, b, b);
    }
  }

  lemma CoalescedWeaken(blocks: Blocks, b: nat)
    requires Coalesced(blocks)
    ensures CoalescedBut(blocks, b, true)
  {
  }

  /** What `find_suitable` leaves behind when it succeeds. */
  lemma AllocPending(h: Heap, size: nat)
    requires WellFormed(h) && 0 < size && size + ALIGN <= USIZE_MAX && Suitable(h.bins, Adjusted(size)).Some?
    ensures var b, s := Suitable(h.bins, Adjusted(size)).value, Adjusted(size);
      && b in h.blocks && h.blocks[b].free && s % 16 == 0 && MIN_PAYLOAD <= s <= 16 * h.blocks[b].n
      && UnitBin(h.blocks[b].n) < BIN_COUNT && b in h.bins[UnitBin(h.blocks[b].n)]
      && var h1 := h.(bins := Unfiled(h.bins, b, h.blocks[b].n));
      && Pending(h1, b) && Coalesced(h1.blocks) && Alloc(h, size) == (Some((b + 1) as nat), Carve(h1, b, s / 16))
  {
    hide BinOf, Mapping, Coalesced, Tiled, Carve, Unfiled, Suitable, Filed;
    var b := Suitable(h.bins, Adjusted(size)).value;
    SuitableIsLargeEnough(h, Adjusted(size));
    UnfileIndexed(h.blocks, h.end, h.bins, b);
  }

  lemma AllocKeepsWellFormed(h: Heap, size: nat)
    requires WellFormed(h) && size + ALIGN <= USIZE_MAX
    ensures WellFormed(Alloc(h, size).1) && Alloc(h, size).1.end == h.end
  {
    hide UnitBin, Tiled, Pending, Coalesced, Unfiled, Suitable;
    if size != 0 && Suitable(h.bins, Adjusted(size)).Some? {
      var b := Suitable(h.bins, Adjusted(size)).value;
      AllocPending(h, size);
      CarveKeepsWellFormed(h.(bins := Unfiled(h.bins, b, h.blocks[b].n)), b, Adjusted(size) / 16);
    }
  }
}
