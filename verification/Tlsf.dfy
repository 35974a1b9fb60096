/** The TLSF allocator itself: headers, links, list heads and bitmaps updated in place, each method
    proved against the abstract heap. */
module Tlsf {
  import opened Bits
  import opened Bins
  import opened AbstractHeap
  import opened Lists
  import opened PoolMemory
  import opened HeapTheorems

  const MIN_POOL: nat := 2 * HEADER_SIZE + MIN_PAYLOAD

  class TlsfAllocator {
    var flBitmap: nat
    const slBitmaps: array<nat>
    /** The 18 x 16 list heads, row by row. */
    const lists: array<int>
    /** The pool, as 16-byte units of two words. */
    const word0: array<int>
    const word1: array<int>
    /** Pool length in bytes; 0 before `AddPool`. */
    var poolBytes: nat
    ghost var heap: Heap

    ghost predicate Arrays()
      reads this
    {
      && lists != word0 && lists != word1 && word0 != word1
      && word0.Length == word1.Length
      && lists.Length == BIN_COUNT && slBitmaps.Length == FL_COUNT
    }

    /** Links, list heads and bitmaps agree with the abstract lists. */
    ghost predicate Linked()
      reads this, lists, slBitmaps, word0, word1
    {
      && Arrays()
      && LinksOk(word0[..], word1[..], lists[..], heap.bins)
      && BitsOk(flBitmap, slBitmaps[..], heap.bins)
    }

    ghost predicate Headed(x: int)
      reads this, word0, word1
    {
      HeadersOk(word0[..], word1[..], heap.blocks, heap.end, x)
    }

    ghost predicate Valid()
      reads this, lists, slBitmaps, word0, word1
    {
      Linked() && Headed(NONE) && WellFormed(heap) && PoolOk()
    }

    /** The sentinel sits where `AddPool` put it. */
    ghost predicate PoolOk()
      reads this
    {
      heap.end == if poolBytes < MIN_POOL then 0 else (poolBytes - 2 * HEADER_SIZE) / 16 + 1
    }

    /** `new`: an empty allocator, over a region of memory that `AddPool` will hand it. */
    constructor (mem0: array<int>, mem1: array<int>)
      requires mem0 != mem1 && mem0.Length == mem1.Length
      ensures Valid() && heap.end == 0 && fresh(lists) && fresh(slBitmaps)
      ensures word0 == mem0 && word1 == mem1
    {
      flBitmap, poolBytes := 0, 0;
      slBitmaps := new nat[FL_COUNT](_ => 0);
      lists := new int[BIN_COUNT](_ => NULL);
      word0, word1 := mem0, mem1;
      heap := Heap(map[], 0, seq(BIN_COUNT, _ => []));
      new;
      forall i: nat ensures !Bit(0, i) { ZeroHasNoBit(i); }
    }

    /** Is the byte at this offset from the pool base inside the pool? */
    method Contains(offset: int) returns (r: bool)
      requires Valid()
      ensures r <==> 0 <= offset < poolBytes
      ensures forall b :: b in heap.blocks && 16 * (b + 1) <= offset < 16 * Next(heap.blocks, b) ==> r
    {
      r := 0 <= offset && offset < poolBytes;
      hide UnitBin, Indexed;
      forall b | b in heap.blocks && 16 * (b + 1) <= offset < 16 * Next(heap.blocks, b) ensures r {
        assert Next(heap.blocks, b) <= heap.end;
      }
    }

    /** Manage the first `size` bytes of memory: one free block and a zero-size sentinel. */
    method AddPool(size: nat)
      requires Valid() && heap.end == 0
      requires size <= 16 * word0.Length && size < BIN_LIMIT + 2 * HEADER_SIZE
      modifies this, slBitmaps, lists, word0, word1
      ensures Valid()
      ensures size < MIN_POOL ==> heap == old(heap)
      ensures size >= MIN_POOL ==>
        var n := (size - 2 * HEADER_SIZE) / 16;
        poolBytes == size && heap == Heap(map[0 := Block(n, true)], n + 1, Filed(old(heap.bins), 0, n))
    {
      if size < MIN_POOL {
        return;
      }
      hide UnitBin, Flags, SizeOf, IsFree, PrevIsFree, LinksOk, BitsOk, HeadersOk, WellFormed, Tiled, Members, Filed;
      poolBytes := size;
      var payloadSize := (size - 2 * HEADER_SIZE) / ALIGN * ALIGN;
      word0[0], word1[0] := 0, payloadSize + 1;
      word0[1], word1[1] := NULL, NULL;
      var sentinel := 1 + payloadSize / 16;
      word0[sentinel], word1[sentinel] := payloadSize, 2;
      ghost var n := payloadSize / 16;
      assert n == (size - 2 * HEADER_SIZE) / 16;
      ghost var blocks := map[0 := Block(n, true)];
      FreshPool(n, heap.bins);
      FreshHeaders(word0[..], word1[..], n);
      FreshLinks(old(word0[..]), old(word1[..]), word0[..], word1[..], lists[..], heap.bins);
      heap := Heap(blocks, n + 1, heap.bins);
      assert slBitmaps[..] == old(slBitmaps[..]);
      InsertFree(0, NONE);
    }

    /** Take the free block b off its list. */
    method RemoveFree(b: nat, ghost x: int)
      requires Linked() && Headed(x) && Tiled(heap.blocks, heap.end) && Members(heap.blocks, heap.bins)
      requires b in heap.blocks && heap.blocks[b].free && UnitBin(heap.blocks[b].n) < BIN_COUNT
      requires b in heap.bins[UnitBin(heap.blocks[b].n)]
      modifies this`flBitmap, this`heap, slBitmaps, lists, word0, word1
      ensures Linked() && Headed(x)
      ensures heap == old(heap).(bins := Unfiled(old(heap.bins), b, old(heap.blocks[b].n)))
      ensures SameButLinks(old(word0[..]), old(word1[..]), word0[..], word1[..], heap.blocks)
    {
      hide Tiled, Members, BitsOk, Without, BinOf, Mapping;
      ghost var blocks, bins := heap.blocks, heap.bins;
      var fl, sl := BinOfHeader(b, x);
      ghost var k: nat := SL_COUNT * fl + sl;
      ghost var l := bins[k];
      ghost var i :| 0 <= i < |l| && l[i] == b;
      assert Node(word0[..], word1[..], l, i);
      if i > 0 { assert Node(word0[..], word1[..], l, i - 1); }
      if i + 1 < |l| { assert Node(word0[..], word1[..], l, i + 1); }
      var prev := word0[b + 1];
      var next := word1[b + 1];
      if prev != NULL {
        word1[prev + 1] := next;
      } else {
        lists[SL_COUNT * fl + sl] := next;
      }
      if next != NULL {
        word0[next + 1] := prev;
      }
      UnlinkLinks(old(word0[..]), old(word1[..]), old(lists[..]), blocks, bins, k, i, word0[..], word1[..], lists[..]);
      SameButLinksHeaders(old(word0[..]), old(word1[..]), word0[..], word1[..], blocks, heap.end, x);
      heap := heap.(bins := bins[k := Without(l, b)]);
      ClearIfEmpty(fl, sl, bins);
    }

    /** Read a block's size from its header and map it to its bin. */
    method BinOfHeader(b: nat, ghost x: int) returns (fl: nat, sl: nat)
      requires Headed(x) && Tiled(heap.blocks, heap.end) && b in heap.blocks
      requires UnitBin(heap.blocks[b].n) < BIN_COUNT
      ensures fl < FL_COUNT && sl < SL_COUNT && SL_COUNT * fl + sl == UnitBin(heap.blocks[b].n)
      ensures b + 1 < word0.Length == word1.Length
    {
      assert Next(heap.blocks, b) <= heap.end && HeaderOk(word0[..], word1[..], heap.blocks, b, x);
      var size := SizeOf(word1[b]);
      MappingShape(size);
      var bin := Mapping(size);
      fl, sl := bin.0, bin.1;
    }

    /** If the list of (fl, sl) has become empty, clear its bitmap bits. */
    method ClearIfEmpty(fl: nat, sl: nat, ghost bins: seq<seq<nat>>)
      requires fl < FL_COUNT && sl < SL_COUNT && Arrays()
      requires LinksOk(word0[..], word1[..], lists[..], heap.bins)
      requires BitsOk(flBitmap, slBitmaps[..], bins) && bins[16 * fl + sl] != []
      requires heap.bins == bins[16 * fl + sl := heap.bins[16 * fl + sl]]
      modifies this`flBitmap, slBitmaps
      ensures Linked()
    {
      hide Chain;
      BitsUpdated(flBitmap, slBitmaps[..], bins, fl, sl, heap.bins[16 * fl + sl]);
      if lists[SL_COUNT * fl + sl] == NULL {
        slBitmaps[fl] := ClearBit(slBitmaps[fl], sl);
        if slBitmaps[fl] == 0 {
          flBitmap := ClearBit(flBitmap, fl);
        }
      }
    }

    /** Put the free block b, on no list so far, at the front of its list and set its bits. */
    method InsertFree(b: nat, ghost x: int)
      requires Linked() && Headed(x) && Tiled(heap.blocks, heap.end) && Members(heap.blocks, heap.bins)
      requires b in heap.blocks && heap.blocks[b].free && UnitBin(heap.blocks[b].n) < BIN_COUNT
      requires b !in heap.bins[UnitBin(heap.blocks[b].n)]
      modifies this`flBitmap, this`heap, slBitmaps, lists, word0, word1
      ensures Linked() && Headed(x)
      ensures heap == old(heap).(bins := Filed(old(heap.bins), b, old(heap.blocks[b].n)))
      ensures SameButLinks(old(word0[..]), old(word1[..]), word0[..], word1[..], heap.blocks)
    {
      hide Tiled, Members, BitsOk, BinOf, Mapping;
      ghost var blocks, bins := heap.blocks, heap.bins;
      var fl, sl := BinOfHeader(b, x);
      ghost var k: nat := SL_COUNT * fl + sl;
      if bins[k] != [] { assert Node(word0[..], word1[..], bins[k], 0); }
      var head := lists[SL_COUNT * fl + sl];
      word0[b + 1] := NULL;
      word1[b + 1] := head;
      if head != NULL {
        word0[head + 1] := b;
      }
      lists[SL_COUNT * fl + sl] := b;
      PushLinks(old(word0[..]), old(word1[..]), old(lists[..]), blocks, bins, k, b, word0[..], word1[..]);
      SameButLinksHeaders(old(word0[..]), old(word1[..]), word0[..], word1[..], blocks, heap.end, x);
      BitsUpdated(flBitmap, slBitmaps[..], bins, fl, sl, [b] + bins[k]);
      // The list of (fl, sl) is not empty: say so on both levels.
      flBitmap := SetBit(flBitmap, fl);
      slBitmaps[fl] := SetBit(slBitmaps[fl], sl);
      heap := heap.(bins := bins[k := [b] + bins[k]]);
    }

    /** Find, and take off its list, the block that serves a request of `size` bytes. */
    method FindSuitable(size: nat) returns (block: int)
      requires Valid() && MIN_PAYLOAD <= size <= USIZE_MAX
      modifies this`flBitmap, this`heap, slBitmaps, lists, word0, word1
      ensures Linked() && Headed(NONE) && PoolOk()
      ensures match Suitable(old(heap.bins), size)
        case None =>
          && block == NULL && heap == old(heap) && flBitmap == old(flBitmap)
          && slBitmaps[..] == old(slBitmaps[..]) && lists[..] == old(lists[..])
          && word0[..] == old(word0[..]) && word1[..] == old(word1[..])
        case Some(b) =>
          && block == b && b in old(heap.blocks)
          && heap == old(heap).(bins := Unfiled(old(heap.bins), b, old(heap.blocks[b].n)))
          && SameButLinks(old(word0[..]), old(word1[..]), word0[..], word1[..], heap.blocks)
    {
      hide BinOf, UnitBin, Mapping, MappingSearch, SearchSize, Tiled, Coalesced, FirstBin, Unfiled;
      hide BitsOk, HeadersOk, Chain, Distinct;
      SearchIsExact(size, 16);
      var bin := MappingSearch(size);
      var fl, sl := bin.0, bin.1;
      if fl >= FL_COUNT {
        return NULL;
      }
      SearchInRange(size);
      var slMap := MaskFrom(slBitmaps[fl], sl);
      if slMap != 0 {
        // A non-empty list in the same row.
        RowSearch(flBitmap, slBitmaps[..], heap.bins, fl, sl);
        sl := TrailingZeros(slMap);
      } else {
        ColumnSearch(flBitmap, slBitmaps[..], heap.bins, fl, sl);
        var flMap := MaskFrom(flBitmap, fl + 1);
        if flMap == 0 {
          return NULL;
        }
        fl := TrailingZeros(flMap);
        sl := TrailingZeros(slBitmaps[fl]);
      }
      block := lists[SL_COUNT * fl + sl];
      assert heap.bins[16 * fl + sl][0] in heap.bins[16 * fl + sl];
      RemoveFree(block, NONE);
    }

    /** The header writes of a split: block b keeps size bytes, the tail gets a header and null links,
        the block after is told. */
    method WriteSplit(b: nat, size: nat, ghost n: nat)
      requires Arrays() && size % 16 == 0 && size >= MIN_PAYLOAD && size + HEADER_SIZE + MIN_PAYLOAD <= 16 * n
      requires b + 1 + n < word0.Length && SizeOf(word1[b]) == 16 * n
      modifies word0, word1
      ensures SplitWords(old(word0[..]), old(word1[..]), b, size / 16, n - size / 16 - 1, word0[..], word1[..])
    {
      hide Flags, SizeOf, SetSize, MarkPrevFree;
      SplitUnits(n, size);
      var remaining := SizeOf(word1[b]) - size;
      var splitPayload := remaining - HEADER_SIZE;
      word1[b] := SetSize(word1[b], size);
      var split := b + 1 + size / 16;
      word0[split] := size;
      word1[split] := splitPayload + 1;
      word0[split + 1] := NULL;
      word1[split + 1] := NULL;
      var after := split + 1 + splitPayload / 16;
      word0[after] := splitPayload;
      word1[after] := MarkPrevFree(word1[after]);
    }

    /** Cut the tail off the free block b, leaving it size / 16 units: headers of b, tail and successor. */
    method SplitOff(b: nat, size: nat)
      requires Linked() && Headed(NONE) && Tiled(heap.blocks, heap.end) && Indexed(heap.blocks, heap.bins, b)
      requires b in heap.blocks && heap.blocks[b].free
      requires size % 16 == 0 && size >= MIN_PAYLOAD && size + HEADER_SIZE + MIN_PAYLOAD <= 16 * heap.blocks[b].n
      modifies this`heap, word0, word1
      ensures Linked() && Headed(b)
      ensures heap == old(heap).(blocks := Split(old(heap.blocks), b, size / 16))
      ensures SameOutside(old(word0[..]), old(word1[..]), word0[..], word1[..], b, Next(old(heap.blocks), b))
    {
      hide UnitBin, Flags, SizeOf, IsFree, PrevIsFree, HeaderOk, Tiled, Split, LinksOk, BitsOk, Members, HeadersOk;
      ghost var blocks, bins, need := heap.blocks, heap.bins, size / 16;
      ghost var w0, w1 := word0[..], word1[..];
      LastUnit(w0, w1, blocks, heap.end, NONE, b);
      SplitUnits(blocks[b].n, size);
      WriteSplit(b, size, blocks[b].n);
      SplitKeepsOutside(w0, w1, b, need, blocks[b].n - need - 1, word0[..], word1[..]);
      hide SplitWords, SameOutside;
      SplitHeaders(w0, w1, blocks, heap.end, b, need, word0[..], word1[..]);
      OutsideKeepsLinks(w0, w1, word0[..], word1[..], lists[..], blocks, heap.end, bins, b);
      heap := heap.(blocks := Split(blocks, b, need));
    }

    /** Split block b and file the tail. */
    method SplitAndFile(b: nat, size: nat)
      requires Linked() && Headed(NONE) && Pending(heap, b)
      requires size % 16 == 0 && size >= MIN_PAYLOAD && size + HEADER_SIZE + MIN_PAYLOAD <= 16 * heap.blocks[b].n
      modifies this`flBitmap, this`heap, slBitmaps, lists, word0, word1
      ensures Linked() && Headed(b)
      ensures var q, m := b + 1 + size / 16, old(heap.blocks[b].n) - size / 16 - 1;
        heap == Heap(Split(old(heap.blocks), b, size / 16), old(heap.end), Filed(old(heap.bins), q, m))
      ensures SamePayloads(old(word0[..]), old(word1[..]), word0[..], word1[..], Live(old(heap.blocks)))
    {
      hide UnitBin, SizeOf, Tiled, LinksOk, BitsOk, Indexed, Members, HeadersOk, Filed;
      ghost var blocks, bins := heap.blocks, heap.bins;
      SplitMembers(blocks, heap.end, bins, b, size / 16);
      SplitOff(b, size);
      OutsideKeepsPayloads(old(word0[..]), old(word1[..]), word0[..], word1[..], blocks, heap.end, b);
      SplitLive(blocks, heap.end, b, size / 16);
      assert Live(blocks) - {b} == Live(blocks);
      ghost var mid0, mid1 := word0[..], word1[..];
      InsertFree(b + 1 + size / 16, b);
      LinksKeepPayloads(mid0, mid1, word0[..], word1[..], heap.blocks, heap.end);
      SamePayloadsChain(old(word0[..]), old(word1[..]), mid0, mid1, word0[..], word1[..], Live(blocks));
    }

    /** Clear block b's free flag and tell its right neighbour. */
    method MarkBlockUsed(b: nat, ghost x: int)
      requires Linked() && Headed(x) && (x == b || x == NONE) && Tiled(heap.blocks, heap.end)
      requires Members(heap.blocks, heap.bins) && b in heap.blocks
      requires forall k :: 0 <= k < BIN_COUNT ==> b !in heap.bins[k]
      modifies this`heap, word0, word1
      ensures Linked() && Headed(NONE)
      ensures heap == old(heap).(blocks := SetFree(old(heap.blocks), b, false))
      ensures SamePayloads(old(word0[..]), old(word1[..]), word0[..], word1[..], Live(old(heap.blocks)) - {b})
    {
      hide UnitBin, Flags, SizeOf, MarkUsed, MarkPrevUsed, Tiled, LinksOk, BitsOk, Members, HeadersOk;
      ghost var blocks := heap.blocks;
      LastUnit(word0[..], word1[..], blocks, heap.end, x, b);
      HeaderUpdates(word1[b], 0);
      word1[b] := MarkUsed(word1[b]);
      var next := b + 1 + SizeOf(word1[b]) / 16;
      word1[next] := MarkPrevUsed(word1[next]);
      MarkUsedHeaders(old(word0[..]), old(word1[..]), blocks, heap.end, x, b, word1[..]);
      OutsideKeepsLinks(old(word0[..]), old(word1[..]), word0[..], word1[..], lists[..], blocks, heap.end, heap.bins, b);
      OutsideKeepsPayloads(old(word0[..]), old(word1[..]), word0[..], word1[..], blocks, heap.end, b);
      heap := heap.(blocks := SetFree(blocks, b, false));
    }

    /** Mark the free block b used, splitting off any excess into a new free block. */
    method PrepareUsed(b: nat, size: nat) returns (ptr: int)
      requires Linked() && Headed(NONE) && Pending(heap, b) && Coalesced(heap.blocks)
      requires PoolOk()
      requires size % 16 == 0 && MIN_PAYLOAD <= size <= 16 * heap.blocks[b].n
      modifies this`flBitmap, this`heap, slBitmaps, lists, word0, word1
      ensures ptr == b + 1 && Valid() && heap == Carve(old(heap), b, size / 16)
      ensures SamePayloads(old(word0[..]), old(word1[..]), word0[..], word1[..], Live(old(heap.blocks)))
    {
      hide UnitBin, SizeOf, Tiled, LinksOk, BitsOk, HeadersOk, Coalesced, CoalescedBut, Indexed, Split, Filed;
      ghost var h0, x := heap, NONE;
      CarveKeepsWellFormed(heap, b, size / 16);
      TrimPending(heap, b, size / 16);
      LastUnit(word0[..], word1[..], heap.blocks, heap.end, NONE, b);
      var blockSize := SizeOf(word1[b]);
      var remaining := blockSize - size;
      if remaining >= HEADER_SIZE + MIN_PAYLOAD {
        SplitAndFile(b, size);
        x := b;
      }
      assert heap == Trim(h0, b, size / 16);
      assert Live(h0.blocks) == Live(heap.blocks) - {b};
      PendingMembers(heap, b);
      ghost var mid0, mid1 := word0[..], word1[..];
      MarkBlockUsed(b, x);
      SamePayloadsChain(old(word0[..]), old(word1[..]), mid0, mid1, word0[..], word1[..], Live(h0.blocks));
      ptr := b + 1;
    }

    /** Allocate `size` bytes: the payload pointer, or NULL. */
    method Alloc(size: nat) returns (ptr: int)
      requires Valid() && size + ALIGN <= USIZE_MAX
      modifies this`flBitmap, this`heap, slBitmaps, lists, word0, word1
      ensures Valid()
      ensures var (p, h) := AbstractHeap.Alloc(old(heap), size);
        heap == h && ptr == match p { case None => NULL case Some(q) => q }
      ensures ptr != NULL ==>
        ptr >= 1 && ptr - 1 in Live(heap.blocks) && size <= 16 * Live(heap.blocks)[ptr - 1] < size + 32
      ensures SamePayloads(old(word0[..]), old(word1[..]), word0[..], word1[..], Live(old(heap.blocks)))
    {
      hide UnitBin, Tiled, LinksOk, BitsOk, HeadersOk, Coalesced, Indexed, Suitable, Unfiled, Carve, Pending;
      if size == 0 {
        return NULL;
      }
      var adjusted := Adjusted(size);
      ghost var h0 := heap;
      var block := FindSuitable(adjusted);
      if block == NULL {
        return NULL;
      }
      AllocPending(h0, size);
      LinksKeepPayloads(old(word0[..]), old(word1[..]), word0[..], word1[..], heap.blocks, heap.end);
      ghost var mid0, mid1 := word0[..], word1[..];
      ptr := PrepareUsed(block, adjusted);
      WasteIsBounded(h0, size);
      LiveEntry(heap.blocks, ptr - 1);
      SamePayloadsChain(old(word0[..]), old(word1[..]), mid0, mid1, word0[..], word1[..], Live(h0.blocks));
    }

    /** Header writes of a merge: block b takes in its right neighbour. */
    method AbsorbNext(b: nat, ghost x: int)
      requires Linked() && Headed(x) && Tiled(heap.blocks, heap.end) && Members(heap.blocks, heap.bins)
      requires b in heap.blocks && Next(heap.blocks, b) in heap.blocks
      requires x == b || x == Next(heap.blocks, b)
      modifies this`heap, word0, word1
      ensures Linked() && Headed(b) && heap == old(heap).(blocks := Absorb(old(heap.blocks), b))
      ensures SamePayloads(old(word0[..]), old(word1[..]), word0[..], word1[..], Live(old(heap.blocks)))
    {
      hide Flags, SizeOf, SetSize, IsFree, PrevIsFree, HeaderOk;
      hide Tiled, LinksOk, BitsOk, HeadersOk, Absorb, Members, SamePayloads;
      ghost var blocks := heap.blocks;
      ghost var q := Next(blocks, b);
      LastUnit(word0[..], word1[..], blocks, heap.end, x, b);
      LastUnit(word0[..], word1[..], blocks, heap.end, x, q);
      var next := b + 1 + SizeOf(word1[b]) / 16;
      var newSize := SizeOf(word1[b]) + HEADER_SIZE + SizeOf(word1[next]);
      assert newSize == 16 * (blocks[b].n + 1 + blocks[q].n);
      SetUnits(word1[b], blocks[b].n + 1 + blocks[q].n);
      word1[b] := SetSize(word1[b], newSize);
      var after := b + 1 + SizeOf(word1[b]) / 16;
      word0[after] := newSize;
      AbsorbHeaders(old(word0[..]), old(word1[..]), blocks, heap.end, b, x, word0[..], word1[..]);
      assert lists[..] == old(lists[..]) && slBitmaps[..] == old(slBitmaps[..]);
      AbsorbKeepsLinks(old(word0[..]), old(word1[..]), word0[..], word1[..], lists[..], blocks, heap.end, heap.bins, b, after);
      heap := heap.(blocks := Absorb(blocks, b));
    }

    /** Merge the pending block b with its right neighbour if that is free. */
    method MergeNext(b: nat)
      requires Linked() && Headed(b) && Pending(heap, b)
      modifies this`flBitmap, this`heap, slBitmaps, lists, word0, word1
      ensures Linked() && Headed(b) && heap == AbstractHeap.MergeNext(old(heap), b)
      ensures SamePayloads(old(word0[..]), old(word1[..]), word0[..], word1[..], Live(old(heap.blocks)))
    {
      hide SizeOf, Tiled, LinksOk, BitsOk, HeadersOk, Members, UnitBin, Absorb, Unfiled;
      ghost var blocks, bins := heap.blocks, heap.bins;
      LastUnit(word0[..], word1[..], blocks, heap.end, b, b);
      BoundaryUnit(blocks, heap.end, b);
      var next := b + 1 + SizeOf(word1[b]) / 16;
      NextFlag(word0[..], word1[..], blocks, heap.end, b, next);
      if IsFree(word1[next]) {
        RemoveFree(next, b);
        ghost var mid0, mid1 := word0[..], word1[..];
        LinksKeepPayloads(old(word0[..]), old(word1[..]), mid0, mid1, blocks, heap.end);
        UnfileMembers(blocks, bins, next);
        AbsorbNext(b, b);
        SamePayloadsChain(old(word0[..]), old(word1[..]), mid0, mid1, word0[..], word1[..], Live(blocks));
      }
    }

    /** Merge the pending block b with its left neighbour if that is free; the merged block. */
    method MergePrev(b: nat) returns (block: nat)
      requires Linked() && Headed(b) && Pending(heap, b)
      modifies this`flBitmap, this`heap, slBitmaps, lists, word0, word1
      ensures Linked() && Headed(block) && (block, heap) == AbstractHeap.MergePrev(old(heap), b)
      ensures SamePayloads(old(word0[..]), old(word1[..]), word0[..], word1[..], Live(old(heap.blocks)))
    {
      hide SizeOf, Tiled, LinksOk, BitsOk, HeadersOk, Members, UnitBin, Absorb, Unfiled;
      ghost var blocks, bins := heap.blocks, heap.bins;
      PrevFlag(word0[..], word1[..], blocks, heap.end, b);
      if !PrevIsFree(word1[b]) {
        return b;
      }
      var prev := b - (word0[b] + HEADER_SIZE) / 16;
      forall p: nat | IsFreePred(blocks, p, b) ensures p == prev {
        UniquePred(blocks, heap.end, p, prev, b);
      }
      RemoveFree(prev, b);
      ghost var mid0, mid1 := word0[..], word1[..];
      LinksKeepPayloads(old(word0[..]), old(word1[..]), mid0, mid1, blocks, heap.end);
      UnfileMembers(blocks, bins, prev);
      AbsorbNext(prev, b);
      SamePayloadsChain(old(word0[..]), old(word1[..]), mid0, mid1, word0[..], word1[..], Live(blocks));
      block := prev;
    }

    /** Tell the right neighbour of the free block b that b is free, and how large. */
    method TellNext(b: nat)
      requires Linked() && Headed(b) && Pending(heap, b)
      modifies word0, word1
      ensures Linked() && Headed(NONE)
      ensures SamePayloads(old(word0[..]), old(word1[..]), word0[..], word1[..], Live(heap.blocks))
    {
      hide SizeOf, MarkPrevFree, Tiled, LinksOk, BitsOk, HeadersOk, Members, UnitBin;
      LastUnit(word0[..], word1[..], heap.blocks, heap.end, b, b);
      BoundaryUnit(heap.blocks, heap.end, b);
      var next := b + 1 + SizeOf(word1[b]) / 16;
      word1[next] := MarkPrevFree(word1[next]);
      word0[next] := SizeOf(word1[b]);
      TellNextHeaders(old(word0[..]), old(word1[..]), heap.blocks, heap.end, b, word0[..], word1[..]);
      HeaderWritesKeepLinks(old(word0[..]), old(word1[..]), word0[..], word1[..], lists[..], heap.blocks, heap.end, heap.bins);
    }

    /** Set block b's free flag. */
    method SetBlockFree(b: nat)
      requires Valid() && b in heap.blocks && !heap.blocks[b].free
      modifies this`heap, word1
      ensures Linked() && Headed(b) && heap == old(heap).(blocks := SetFree(old(heap.blocks), b, true))
      ensures Pending(heap, b) && CoalescedBut(heap.blocks, b, false)
      ensures Live(heap.blocks) == Live(old(heap.blocks)) - {b}
      ensures SamePayloads(word0[..], old(word1[..]), word0[..], word1[..], Live(heap.blocks))
    {
      hide SizeOf, MarkFree, Tiled, LinksOk, BitsOk, HeadersOk, Members, UnitBin, Pending, CoalescedBut, SamePayloads;
      ghost var blocks := heap.blocks;
      LastUnit(word0[..], word1[..], blocks, heap.end, NONE, b);
      word1[b] := MarkFree(word1[b]);
      MarkFreeHeaders(word0[..], old(word1[..]), blocks, heap.end, b, word1[..]);
      HeaderWritesKeepLinks(word0[..], old(word1[..]), word0[..], word1[..], lists[..], blocks, heap.end, heap.bins);
      SetFreePending(heap, b);
      SetFreeLive(blocks, b);
      SamePayloadsFewer(word0[..], old(word1[..]), word0[..], word1[..], Live(blocks), Live(blocks) - {b});
      heap := heap.(blocks := SetFree(blocks, b, true));
    }

    /** Merge the pending block b with its free neighbours and tell the block after; the merged block. */
    method Coalesce(b: nat) returns (block: nat)
      requires Linked() && Headed(b) && Pending(heap, b) && CoalescedBut(heap.blocks, b, false)
      modifies this`flBitmap, this`heap, slBitmaps, lists, word0, word1
      ensures Linked() && Headed(NONE) && Pending(heap, block)
      ensures (block, heap) == AbstractHeap.MergePrev(AbstractHeap.MergeNext(old(heap), b), b)
      ensures SamePayloads(old(word0[..]), old(word1[..]), word0[..], word1[..], Live(old(heap.blocks)))
      ensures Live(heap.blocks) == Live(old(heap.blocks))
    {
      hide UnitBin, Tiled, LinksOk, BitsOk, HeadersOk, Pending, CoalescedBut, SamePayloads, Live;
      hide AbstractHeap.MergeNext, AbstractHeap.MergePrev;
      ghost var live, a0, a1 := Live(heap.blocks), word0[..], word1[..];
      FreeStages(heap, b);
      MergeNext(b);
      ghost var c0, c1 := word0[..], word1[..];
      block := MergePrev(b);
      ghost var d0, d1 := word0[..], word1[..];
      SamePayloadsChain(a0, a1, c0, c1, d0, d1, live);
      TellNext(block);
      SamePayloadsChain(a0, a1, d0, d1, word0[..], word1[..], live);
    }

    /** File the merged block. */
    method FilePending(b: nat)
      requires Linked() && Headed(NONE) && Pending(heap, b)
      modifies this`flBitmap, this`heap, slBitmaps, lists, word0, word1
      ensures Linked() && Headed(NONE)
      ensures heap == old(heap).(bins := Filed(old(heap.bins), b, old(heap.blocks[b].n)))
      ensures SamePayloads(old(word0[..]), old(word1[..]), word0[..], word1[..], Live(heap.blocks))
    {
      hide UnitBin, Tiled, LinksOk, BitsOk, HeadersOk, Members, Indexed, Filed, SamePayloads;
      FileReady(heap, b);
      InsertFree(b, NONE);
      LinksKeepPayloads(old(word0[..]), old(word1[..]), word0[..], word1[..], heap.blocks, heap.end);
    }

    method FreeBlock(b: nat)
      requires Valid() && b in heap.blocks && !heap.blocks[b].free
      modifies this`flBitmap, this`heap, slBitmaps, lists, word0, word1
      ensures Valid() && heap == AbstractHeap.Free(old(heap), b)
      ensures SamePayloads(old(word0[..]), old(word1[..]), word0[..], word1[..], Live(old(heap.blocks)) - {b})
    {
      hide LinksOk, BitsOk, HeadersOk, Pending, CoalescedBut, WellFormed, Filed, SamePayloads, Live, SetFree;
      hide AbstractHeap.MergeNext, AbstractHeap.MergePrev;
      ghost var a0, a1 := word0[..], word1[..];
      FreeKeepsWellFormed(heap, b);
      SetBlockFree(b);
      ghost var live, b0, b1 := Live(heap.blocks), word0[..], word1[..];
      var block := Coalesce(b);
      ghost var c0, c1 := word0[..], word1[..];
      SamePayloadsChain(a0, a1, b0, b1, c0, c1, live);
      FilePending(block);
      SamePayloadsChain(a0, a1, c0, c1, word0[..], word1[..], live);
    }

    /** Free the block whose payload is at `ptr`, merging it with its free neighbours. */
    method Free(ptr: int)
      requires Valid() && (ptr == NULL || (ptr >= 1 && ptr - 1 in Live(heap.blocks)))
      modifies this`flBitmap, this`heap, slBitmaps, lists, word0, word1
      ensures Valid()
      ensures heap == if ptr == NULL then old(heap) else AbstractHeap.Free(old(heap), ptr - 1)
      ensures SamePayloads(old(word0[..]), old(word1[..]), word0[..], word1[..], Live(old(heap.blocks)) - {ptr - 1})
    {
      if ptr == NULL {
        return;
      }
      hide Valid, AbstractHeap.Free, SamePayloads;
      var b: nat := ptr - 1;
      LiveEntry(heap.blocks, b);
      hide Live;
      FreeBlock(b);
    }

    /** The payload size of the live block at `ptr`. */
    method UsableSize(ptr: int) returns (size: nat)
      requires Valid() && (ptr == NULL || (ptr >= 1 && ptr - 1 in Live(heap.blocks)))
      ensures size == if ptr == NULL then 0 else 16 * Live(heap.blocks)[ptr - 1]
    {
      if ptr == NULL {
        return 0;
      }
      LastUnit(word0[..], word1[..], heap.blocks, heap.end, NONE, ptr - 1);
      size := SizeOf(word1[ptr - 1]);
    }

    /** The program writes any word of a live payload: the allocator does not notice. */
    method WritePayload(ptr: int, unit: nat, second: bool, value: int)
      requires Valid() && ptr >= 1 && ptr - 1 in Live(heap.blocks) && unit < Live(heap.blocks)[ptr - 1]
      modifies word0, word1
      ensures Valid() && heap == old(heap)
      ensures SamePayloads(old(word0[..]), old(word1[..]), word0[..], word1[..], Live(heap.blocks) - {ptr - 1})
    {
      hide UnitBin, SizeOf, Coalesced, BitsOk;
      var b: nat := ptr - 1;
      assert b in heap.blocks && !heap.blocks[b].free by { LiveEntry(heap.blocks, b); }
      assert ptr + unit < Next(heap.blocks, b) <= heap.end;
      if second { word1[ptr + unit] := value; } else { word0[ptr + unit] := value; }
      OutsideKeepsLinks(old(word0[..]), old(word1[..]), word0[..], word1[..], lists[..], heap.blocks, heap.end, heap.bins, b);
      OutsideKeepsPayloads(old(word0[..]), old(word1[..]), word0[..], word1[..], heap.blocks, heap.end, b);
      HeadersFrame(old(word0[..]), old(word1[..]), word0[..], word1[..], heap.blocks, heap.end, NONE);
    }

    /** An alloc that succeeds and a free of its result put every header, link, list head and bitmap
        word back. */
    method AllocThenFree(size: nat) returns (ptr: int)
      requires Valid() && size + ALIGN <= USIZE_MAX && heap.end > 0
      modifies this`flBitmap, this`heap, slBitmaps, lists, word0, word1
      ensures Valid() && heap == old(heap)
      ensures flBitmap == old(flBitmap) && slBitmaps[..] == old(slBitmaps[..]) && lists[..] == old(lists[..])
      ensures SameTags(old(word0[..]), old(word1[..]), word0[..], word1[..], heap.blocks, heap.end)
      ensures SamePayloads(old(word0[..]), old(word1[..]), word0[..], word1[..], Live(heap.blocks))
    {
      hide UnitBin, SamePayloads, SameTags, WellFormed, HeadersOk, LinksOk, BitsOk, AbstractHeap.Alloc, AbstractHeap.Free;
      ghost var w0, w1, h, live := word0[..], word1[..], heap, Live(heap.blocks);
      ptr := Alloc(size);
      ghost var m0, m1 := word0[..], word1[..];
      if ptr != NULL {
        FreeUndoesAlloc(h, size);
        AllocAddsOneLive(h, size);
        LiveEntry(heap.blocks, ptr - 1);
      }
      assert ptr != NULL ==> Live(heap.blocks) - {ptr - 1} == live;
      Free(ptr);
      AllocNoneKeeps(h, size);
      if ptr == NULL {
        SamePayloadsFewer(m0, m1, word0[..], word1[..], Live(h.blocks) - {ptr - 1}, live);
      }
      SamePayloadsChain(w0, w1, m0, m1, word0[..], word1[..], live);
      LayoutDetermined(w0, w1, word0[..], word1[..], h, old(lists[..]), lists[..]);
      BitmapsDetermined(old(flBitmap), old(slBitmaps[..]), flBitmap, slBitmaps[..], h.bins);
    }
  }
}
