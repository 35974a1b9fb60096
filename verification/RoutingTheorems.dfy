/** What sequences of API calls guarantee: live blocks do not overlap, each holds its request, each is
    freed and sized by the component that produced it, and nothing that is freed is lost. */
module RoutingTheorems {
  import opened Arithmetic
  import opened Lists
  import opened SizeClass
  import opened ArenaLayout
  import opened SlabMemory
  import opened Bins
  import opened AbstractHeap
  import opened HeapTheorems
  import opened Routing
  import opened RoutingProofs
  import S = AbstractSlab

  // ---------------------------------------------------------------------------------------------
  // malloc: who serves which request

  /** The state from which a small request falls back to TLSF and the arena. */
  function Fallback(a: Api, tid: nat, size: nat): Api
    requires tid < |a.slabs| == |a.stacks|
  {
    if 1 <= size <= 1024 then Drained(a, tid) else a
  }

  /** A request of 0 bytes gets null. */
  lemma MallocNothing(a: Api, tid: nat, region: Option<nat>)
    requires Inv(a) && tid < |a.slabs|
    ensures |a.records| == PAGES_PER_ARENA && |a.slabs| == |a.stacks| && WellFormed(a.tlsf)
    ensures FerrumMalloc(a, tid, 0, region) == (a, 0)
  {
    hide Inv;
    StepReady(a);
  }

  /** A request of 1 to 1024 bytes first drains the thread's stack. It gets a slot of the thread's own slab,
      of the smallest class that holds it, if a page of the class has a free slot or the arena has a page
      left, and otherwise what TLSF and the arena give for it. */
  lemma MallocSmall(a: Api, tid: nat, size: nat, region: Option<nat>, class_: nat)
    requires Inv(a) && tid < |a.slabs| && 1 <= size <= 1024 && SmallestFit(size, class_)
    ensures class_ < NUM_SIZE_CLASSES && |a.records| == PAGES_PER_ARENA && |a.slabs| == |a.stacks| && WellFormed(a.tlsf)
    ensures var (a', ptr) := FerrumMalloc(a, tid, size, region);
      var d := Drained(a, tid);
      if tid < |d.slabs| && (S.HasPartial(d.slabs[tid], class_) || d.nextFreePage < 512) then
        && ptr != 0 && Inv(a') && ptr !in a.live && ptr in a'.live && a'.live == a.live[ptr := a'.live[ptr]]
        && a'.live[ptr].SlabSlot? && a'.live[ptr].owner == tid && a'.live[ptr].class_ == class_
        && a'.tlsf == a.tlsf && a'.huge == a.huge
      else Inv(d) && d.live == a.live && (a', ptr) == LargeMalloc(d, size)
  {
    hide Inv, SlabMalloc, LargeMalloc, Drained, S.HasPartial, SmallestFit;
    StepReady(a);
    SmallestFitUnique(size, class_, SizeToClass(size));
    DrainKeeps(a, tid);
    DrainedParts(a, tid);
    StepReady(Drained(a, tid));
    SlabMallocKeeps(Drained(a, tid), tid, class_);
    SlabMallocParts(Drained(a, tid), tid, class_);
  }

  lemma DrainedParts(a: Api, t: nat)
    requires t < |a.slabs| && t < |a.stacks|
    ensures var d := Drained(a, t);
      && |d.slabs| == |a.slabs| && |d.stacks| == |a.stacks| && d.tlsf == a.tlsf && d.huge == a.huge && d.live == a.live
      && d.nextFreePage == a.nextFreePage && d.records == a.records && d.base == a.base
  {
  }

  lemma SlabMallocParts(a: Api, t: nat, class_: nat)
    requires t < |a.slabs| && class_ < NUM_SIZE_CLASSES && |a.records| == PAGES_PER_ARENA
    ensures var b := SlabMalloc(a, t, class_).0; b.tlsf == a.tlsf && b.huge == a.huge
  {
  }

  /** What the drain does: the stack is empty, its slots and no others have become free, nothing else changes. */
  lemma DrainEffect(a: Api, t: nat)
    requires Inv(a) && t < |a.slabs|
    ensures |a.slabs| == |a.stacks|
    ensures var d := Drained(a, t);
      && Inv(d) && d == a.(slabs := d.slabs, stacks := a.stacks[t := []]) && |d.slabs| == |a.slabs|
      && forall u, p, i :: 0 <= u < |a.slabs| ==>
           (S.IsFreeSlot(d.slabs[u], p, i) <==>
            S.IsFreeSlot(a.slabs[u], p, i) || (u == t && S.Slot(p, i) in a.stacks[t]))
  {
    hide WellFormed, RecordsOk, SlabsOk, StacksOk, HugeOk, TlsfOk, BumpsApart, SlotsKept, LiveOk, S.FreeInOrder;
    hide S.IsFreeSlot;
    StepReady(a);
    DrainKeeps(a, t);
  }

  /** After a request of 1 to 1024 bytes the thread's stack is empty, and every slot that was on it is free
      on its page, or is the slot the request has got. */
  lemma SmallMallocDrains(a: Api, tid: nat, size: nat, region: Option<nat>, a': Api, ptr: nat)
    requires Inv(a) && ApiStep(a, MallocCall(tid, size, region), a', ptr) && 1 <= size <= 1024
    ensures tid < |a.slabs| == |a.stacks| == |a'.slabs| && a'.stacks == a.stacks[tid := []]
    ensures forall x :: x in a.stacks[tid] ==>
              || S.IsFreeSlot(a'.slabs[tid], x.page, x.idx)
              || (ptr in a'.live && a'.live[ptr] == SlabSlot(tid, x.page, SizeToClass(size), x.idx))
  {
    hide Inv, Drained, SizeToClass, SlabMalloc, AbstractHeap.Alloc, WellFormed, S.IsFreeSlot, FreshRegion;
    StepReady(a);
    DrainEffect(a, tid);
    StepReady(Drained(a, tid));
    SlabMallocEffect(Drained(a, tid), tid, SizeToClass(size));
    SlabMallocKeeps(Drained(a, tid), tid, SizeToClass(size));
  }

  lemma SlabMallocEffect(d: Api, t: nat, class_: nat)
    requires Inv(d) && t < |d.slabs| && class_ < NUM_SIZE_CLASSES && |d.records| == PAGES_PER_ARENA
    ensures var (a', ptr) := SlabMalloc(d, t, class_);
      && a'.stacks == d.stacks && |a'.slabs| == |d.slabs| && a'.tlsf == d.tlsf
      && forall p, i :: S.IsFreeSlot(d.slabs[t], p, i) ==>
           S.IsFreeSlot(a'.slabs[t], p, i) || (ptr in a'.live && a'.live[ptr] == SlabSlot(t, p, class_, i))
  {
    hide Inv, S.IsFreeSlot, TakeSlot, GrowSlab, S.HasPartial;
    if S.HasPartial(d.slabs[t], class_) {
      TakeEffect(d, t, class_);
    } else if d.nextFreePage < PAGES_PER_ARENA {
      GrowKeeps(d, t, class_);
      GrowEffect(d, t, class_);
      TakeEffect(GrowSlab(d, t, class_), t, class_);
    }
  }

  lemma TakeEffect(d: Api, t: nat, class_: nat)
    requires Inv(d) && t < |d.slabs| && class_ < NUM_SIZE_CLASSES && S.HasPartial(d.slabs[t], class_)
    ensures var (a', ptr) := TakeSlot(d, t, class_);
      && a'.stacks == d.stacks && |a'.slabs| == |d.slabs| && a'.tlsf == d.tlsf
      && forall p, i :: S.IsFreeSlot(d.slabs[t], p, i) ==>
           S.IsFreeSlot(a'.slabs[t], p, i) || (ptr in a'.live && a'.live[ptr] == SlabSlot(t, p, class_, i))
  {
    hide Inv, S.Pop, S.HasPartial, SlotAddr, S.IsFreeSlot;
    SlabReady(d, t);
    S.PopKeepsWellFormed(d.slabs[t], class_);
  }

  lemma GrowEffect(d: Api, t: nat, class_: nat)
    requires Inv(d) && t < |d.slabs| && class_ < NUM_SIZE_CLASSES && class_ < |d.slabs[t].partials|
    requires d.nextFreePage < |d.records| && !S.HasPartial(d.slabs[t], class_)
    ensures var g := GrowSlab(d, t, class_);
      && g.stacks == d.stacks && |g.slabs| == |d.slabs| && g.tlsf == d.tlsf
      && forall p, i :: S.IsFreeSlot(d.slabs[t], p, i) ==> S.IsFreeSlot(g.slabs[t], p, i)
  {
    hide Inv, S.AddPage, S.HasPartial;
    InvParts(d);
    hide RecordsOk, SlabsOk;
    NextPageUnowned(d, t);
    S.NoPartialMeansEmpty(d.slabs[t], class_);
    S.AddPageKeepsWellFormed(d.slabs[t], d.nextFreePage, class_);
  }

  /** A request of 1025 to 262143 bytes goes to TLSF and the arena. */
  lemma MallocLarge(a: Api, tid: nat, size: nat, region: Option<nat>)
    requires Inv(a) && tid < |a.slabs| && 1025 <= size <= 262143
    ensures |a.records| == PAGES_PER_ARENA && |a.slabs| == |a.stacks| && WellFormed(a.tlsf)
    ensures FerrumMalloc(a, tid, size, region) == LargeMalloc(a, size)
  {
    hide Inv, LargeMalloc;
    StepReady(a);
  }

  /** TLSF serves a request if some free block reaches the rounded size m; otherwise the arena does if the
      pages that are left have room; otherwise the answer is null and nothing changes. */
  lemma LargeServes(d: Api, size: nat, al: nat, fl: nat, m: nat)
    requires Inv(d) && size > 0 && size + ALIGN <= USIZE_MAX && Aligned(size, al) && Rounded(al, fl, m)
    ensures WellFormed(d.tlsf)
    ensures var (a', ptr) := LargeMalloc(d, size);
      && Inv(a')
      && (if exists b :: b in d.tlsf.blocks && d.tlsf.blocks[b].free && 16 * d.tlsf.blocks[b].n >= m then
            ptr != 0 && ptr in a'.live && a'.live[ptr].TlsfBlock?
          else if d.nextFreePage * 4096 + size <= 512 * 4096 then
            ptr != 0 && ptr in a'.live && a'.live[ptr].BumpBlock?
          else ptr == 0 && a' == d)
  {
    hide Inv, LargeMalloc, AbstractHeap.Alloc, WellFormed, Aligned, Rounded;
    StepReady(d);
    LargeMallocKeeps(d, size);
    AllocFailsExactly(d.tlsf, size, al, fl, m);
  }

  /** A request of 262144 bytes or more gets a region of its own, or null. */
  lemma MallocHuge(a: Api, tid: nat, size: nat, region: Option<nat>)
    requires Inv(a) && tid < |a.slabs| && size >= 262144 && size + 2 * PAGE_SIZE <= USIZE_MAX
    requires region.Some? ==> FreshRegion(a, region.value, HugeTotal(size))
    ensures |a.records| == PAGES_PER_ARENA && |a.slabs| == |a.stacks| && WellFormed(a.tlsf)
    ensures var (a', ptr) := FerrumMalloc(a, tid, size, region);
      && Inv(a')
      && if region.Some? then
           ptr == region.value + 4096 && ptr !in a.live && a'.live == a.live[ptr := HugeBlock(HugeTotal(size))]
           && a'.tlsf == a.tlsf
         else ptr == 0 && a' == a
  {
    hide Inv, FreshRegion, HugeTotal;
    StepReady(a);
    if region.Some? { HugeMallocKeeps(a, size, region.value); }
  }

  // ---------------------------------------------------------------------------------------------
  // Every call keeps the invariant

  lemma MallocKeeps(a: Api, tid: nat, size: nat, region: Option<nat>, a': Api, ptr: nat)
    requires Inv(a) && ApiStep(a, MallocCall(tid, size, region), a', ptr)
    ensures Inv(a') && if ptr == 0 then a'.live == a.live
                       else ptr !in a.live && ptr in a'.live && a'.live == a.live[ptr := a'.live[ptr]]
  {
    hide Inv, FerrumMalloc, LargeMalloc, HugeTotal, FreshRegion, S.HasPartial, Drained, SmallestFit;
    StepReady(a);
    if size == 0 {
      MallocNothing(a, tid, region);
    } else if size <= 1024 {
      MallocSmall(a, tid, size, region, SizeToClass(size));
      DrainKeeps(a, tid);
      StepReady(Drained(a, tid));
      LargeMallocKeeps(Drained(a, tid), size);
    } else if size < 262144 {
      MallocLarge(a, tid, size, region);
      LargeMallocKeeps(a, size);
    } else {
      MallocHuge(a, tid, size, region);
    }
  }

  /** What free does, by the origin of the pointer: the owner's slot is free again at once, any other
      thread's goes on top of the owner's stack, a TLSF block is merged into the pool, a huge region is
      unmapped, a bump block stays where it is. Nothing else changes. */
  lemma FreeEffect(a: Api, tid: nat, p: nat)
    requires Inv(a) && tid < |a.slabs| && p in a.live
    ensures |a.records| == PAGES_PER_ARENA && |a.slabs| == |a.stacks|
    ensures var a' := FerrumFree(a, tid, p);
      && Inv(a') && a'.live == a.live - {p}
      && match a.live[p]
         case SlabSlot(t, q, _, i) =>
           && a'.tlsf == a.tlsf && a'.huge == a.huge && t < |a.slabs| == |a'.slabs|
           && (if t == tid then
                 && a'.stacks == a.stacks
                 && forall u, r, j :: 0 <= u < |a.slabs| ==>
                      (S.IsFreeSlot(a'.slabs[u], r, j) <==>
                       S.IsFreeSlot(a.slabs[u], r, j) || (u == t && r == q && j == i))
               else
                 a'.slabs == a.slabs && a'.stacks == a.stacks[t := [S.Slot(q, i)] + a.stacks[t]])
         case TlsfBlock(b) =>
           && a'.slabs == a.slabs && a'.stacks == a.stacks && a'.huge == a.huge
           && b in a.tlsf.blocks && a'.tlsf == AbstractHeap.Free(a.tlsf, b)
           && Live(a'.tlsf.blocks) == Live(a.tlsf.blocks) - {b}
         case HugeBlock(_) =>
           a'.slabs == a.slabs && a'.stacks == a.stacks && a'.tlsf == a.tlsf && a'.huge == a.huge - {p}
         case BumpBlock(_, _) =>
           a'.slabs == a.slabs && a'.stacks == a.stacks && a'.tlsf == a.tlsf && a'.huge == a.huge
  {
    hide Inv, RouteFree, SlotAt, AbstractHeap.Free, Live, S.IsFreeSlot, S.CanPush, PoolBase;
    StepReady(a);
    FreeGoesBack(a, tid, p);
    match a.live[p]
    case SlabSlot(t, q, _, i) =>
      SlotAtLive(a, p);
      if t == tid { ReturnKeeps(a, p, FerrumFree(a, tid, p)); } else { StackKeeps(a, p, FerrumFree(a, tid, p)); }
    case TlsfBlock(b) =>
      LivePage(a, p);
      FreeRemovesOneLive(a.tlsf, b);
      TlsfFreeKeeps(a, p, FerrumFree(a, tid, p));
    case HugeBlock(_) => HugeFreeKeeps(a, p, FerrumFree(a, tid, p));
    case BumpBlock(_, _) => BumpFreeKeeps(a, p, FerrumFree(a, tid, p));
  }

  lemma FreeNull(a: Api, tid: nat)
    requires Inv(a) && tid < |a.slabs|
    ensures |a.records| == PAGES_PER_ARENA && FerrumFree(a, tid, 0) == a
  {
    hide WellFormed, RecordsOk, SlabsOk, StacksOk, HugeOk, TlsfOk, BumpsApart, SlotsKept;
    StepReady(a);
    NullNotLive(a);
    assert a.live - {0} == a.live;
  }

  lemma NullNotLive(a: Api)
    requires Inv(a)
    ensures 0 !in a.live
  {
    hide WellFormed, RecordsOk, SlabsOk, StacksOk, HugeOk, TlsfOk, BumpsApart, SlotsKept, LiveOk, OriginOk;
    if 0 in a.live { LivePage(a, 0); }
  }

  /** Every call keeps the invariant; malloc adds one pointer that was not live or answers null; free
      takes away exactly its own. */
  lemma StepKeeps(a: Api, call: Call, a': Api, ptr: nat)
    requires Inv(a) && ApiStep(a, call, a', ptr)
    ensures Inv(a')
    ensures match call
      case FreeCall(_, p) => a'.live == a.live - {p}
      case MallocCall(_, _, _) =>
        if ptr == 0 then a'.live == a.live
        else ptr !in a.live && ptr in a'.live && a'.live == a.live[ptr := a'.live[ptr]]
  {
    hide Inv, FerrumMalloc, FerrumFree, FreshRegion;
    match call
    case MallocCall(tid, size, region) => MallocKeeps(a, tid, size, region, a', ptr);
    case FreeCall(tid, p) =>
      NullNotLive(a);
      if p == 0 { FreeNull(a, tid); } else { FreeEffect(a, tid, p); }
  }

  /** Every call that its caller may make returns. */
  lemma CallReturns(a: Api, call: Call) returns (a': Api, ptr: nat)
    requires Inv(a) && MayCall(a, call)
    ensures ApiStep(a, call, a', ptr)
  {
    hide Inv, FerrumMalloc, FerrumFree, FreshRegion;
    StepReady(a);
    match call
    case MallocCall(tid, size, region) =>
      var r := FerrumMalloc(a, tid, size, region);
      a', ptr := r.0, r.1;
    case FreeCall(tid, p) => a', ptr := FerrumFree(a, tid, p), 0;
  }

  // ---------------------------------------------------------------------------------------------
  // Live blocks do not overlap

  /** How many bytes from its pointer a block of this origin has: the slot, the payload of the TLSF block
      or of the region, or what was asked of the arena. */
  function Extent(a: Api, o: Origin): nat {
    match o
    case SlabSlot(_, _, c, _) => if c < NUM_SIZE_CLASSES then ClassToSize(c) else 0
    case TlsfBlock(b) => if b in a.tlsf.blocks then 16 * a.tlsf.blocks[b].n else 0
    case BumpBlock(_, size) => size
    case HugeBlock(total) => if total >= 4096 then total - 4096 else 0
  }

  /** The part of the address space a block lies in: a page of slots, the pool, a run of bump pages,
      or a region outside the arena. */
  lemma Placed(a: Api, p: nat)
    requires Inv(a) && p in a.live
    ensures Extent(a, a.live[p]) > 0
    ensures match a.live[p]
      case SlabSlot(_, q, _, _) =>
        && FIRST_FREE_PAGE <= q < a.nextFreePage && a.records[q].sizeClass != NO_CLASS
        && PageAddr(a.base, q) <= p && p + Extent(a, a.live[p]) <= PageAddr(a.base, q) + 4096
      case TlsfBlock(_) =>
        PoolBase(a) <= p && p + Extent(a, a.live[p]) <= PoolBase(a) + 524288
      case BumpBlock(q, size) =>
        && Extent(a, a.live[p]) == size && p == PageAddr(a.base, q) && FIRST_FREE_PAGE <= q
        && p + size <= PageAddr(a.base, a.nextFreePage)
        && forall r :: q <= r < a.nextFreePage && PageAddr(a.base, r) < p + size ==> a.records[r].sizeClass == NO_CLASS
      case HugeBlock(_) => Apart(p, Extent(a, a.live[p]), a.base, 0x20_0000)
  {
    hide WellFormed, Live, SlotsPerPage, ClassToSize, S.WellFormed, RecordsOk, SlabsOk, StacksOk, BumpsApart, SlotsKept;
    hide PtrToPageIndex, OriginOk, LiveOk, HugeOk, TlsfOk;
    StepReady(a);
    LivePage(a, p);
    match a.live[p]
    case SlabSlot(t, q, c, i) => SlotPlaced(a, p);
    case TlsfBlock(b) => PoolPlaced(a, p);
    case BumpBlock(q, size) => BumpPlaced(a, p);
    case HugeBlock(_) => HugeIsLive(a, p);
  }

  lemma SlotPlaced(a: Api, p: nat)
    requires Inv(a) && p in a.live && a.live[p].SlabSlot?
    ensures var o := a.live[p];
      && o.class_ < NUM_SIZE_CLASSES && o.idx < SlotsPerPage(o.class_)
      && p == PageAddr(a.base, o.page) + o.idx * ClassToSize(o.class_)
      && p + ClassToSize(o.class_) <= PageAddr(a.base, o.page) + 4096
  {
    hide WellFormed, Live, S.WellFormed, RecordsOk, SlabsOk, StacksOk, BumpsApart, SlotsKept, LiveOk, HugeOk, TlsfOk;
    hide ClassToSize, SlotsPerPage;
    LiveBlock(a, p);
    var o := a.live[p];
    SlotOrigin(a, p, o);
    SlotInPage(o.page, o.class_, o.idx);
  }

  lemma PoolPlaced(a: Api, p: nat)
    requires Inv(a) && p in a.live && a.live[p].TlsfBlock?
    ensures var b := a.live[p].block;
      && b in a.tlsf.blocks && a.tlsf.blocks[b].n >= 1 && p == PoolBase(a) + 16 * (b + 1)
      && b + 1 + a.tlsf.blocks[b].n < 32768
  {
    hide S.WellFormed, RecordsOk, SlabsOk, StacksOk, BumpsApart, SlotsKept, LiveOk, HugeOk;
    LiveBlock(a, p);
    var b := a.live[p].block;
    LiveEntry(a.tlsf.blocks, b);
    LivePayloadsDisjoint(a.tlsf, b, b);
  }

  lemma BumpPlaced(a: Api, p: nat)
    requires Inv(a) && p in a.live && a.live[p].BumpBlock?
    ensures BumpOk(a, a.live[p].page, a.live[p].size) && p == PageAddr(a.base, a.live[p].page)
  {
    hide WellFormed, Live, S.WellFormed, RecordsOk, SlabsOk, StacksOk, BumpsApart, SlotsKept, LiveOk, HugeOk, TlsfOk;
    LiveBlock(a, p);
  }

  /** Two slots of one page. */
  lemma SlotsApart(a: Api, p: nat, q: nat)
    requires Inv(a) && p in a.live && q in a.live && p != q && a.live[p].SlabSlot? && a.live[q].SlabSlot?
    requires a.live[p].page == a.live[q].page
    ensures Apart(p, Extent(a, a.live[p]), q, Extent(a, a.live[q]))
  {
    hide WellFormed, Live, S.WellFormed, RecordsOk, SlabsOk, StacksOk, BumpsApart, SlotsKept, LiveOk, HugeOk, TlsfOk;
    hide ClassToSize, SlotsPerPage, OriginOk, PtrToPageIndex;
    StepReady(a);
    LivePage(a, p);
    LivePage(a, q);
    SlotPlaced(a, p);
    SlotPlaced(a, q);
    var c, i, j := a.live[p].class_, a.live[p].idx, a.live[q].idx;
    if i < j { MulLess(i, j, ClassToSize(c)); }
    if j < i { MulLess(j, i, ClassToSize(c)); }
  }

  lemma BlocksApart(a: Api, p: nat, q: nat)
    requires Inv(a) && p in a.live && q in a.live && p != q && a.live[p].TlsfBlock? && a.live[q].TlsfBlock?
    ensures Apart(p, Extent(a, a.live[p]), q, Extent(a, a.live[q]))
  {
    hide S.WellFormed, RecordsOk, SlabsOk, StacksOk, BumpsApart, SlotsKept, LiveOk, HugeOk;
    PoolPlaced(a, p);
    PoolPlaced(a, q);
    LiveBlock(a, p);
    LiveBlock(a, q);
    LivePayloadsDisjoint(a.tlsf, a.live[p].block, a.live[q].block);
  }

  lemma BumpBlocksApart(a: Api, p: nat, q: nat)
    requires BumpsApart(a) && p in a.live && q in a.live && p != q && a.live[p].BumpBlock? && a.live[q].BumpBlock?
    ensures Apart(p, Extent(a, a.live[p]), q, Extent(a, a.live[q]))
  {
  }

  lemma HugeBlocksApart(a: Api, p: nat, q: nat)
    requires HugeOk(a) && p in a.huge && q in a.huge && p != q
    ensures p > PAGE_SIZE && q > PAGE_SIZE && Apart(p - PAGE_SIZE, a.huge[p], q - PAGE_SIZE, a.huge[q])
  {
  }

  /** The bytes of two live blocks are different bytes. */
  lemma LiveBlocksApart(a: Api, p: nat, q: nat)
    requires Inv(a) && p in a.live && q in a.live && p != q
    ensures Apart(p, Extent(a, a.live[p]), q, Extent(a, a.live[q]))
  {
    hide Inv, Extent, BumpsApart, HugeOk;
    StepReady(a);
    Placed(a, p);
    Placed(a, q);
    InvParts(a);
    match a.live[p] {
      case SlabSlot(_, _, _, _) => SlabApart(a, p, q);
      case TlsfBlock(_) =>
        if a.live[q].TlsfBlock? { BlocksApart(a, p, q); }
        else if a.live[q].SlabSlot? { SlabApart(a, q, p); }
      case BumpBlock(_, _) =>
        if a.live[q].BumpBlock? { BumpBlocksApart(a, p, q); }
        else if a.live[q].SlabSlot? { SlabApart(a, q, p); }
      case HugeBlock(_) =>
        if a.live[q].HugeBlock? {
          HugeExtent(a, p);
          HugeExtent(a, q);
          HugeBlocksApart(a, p, q);
        } else if a.live[q].SlabSlot? { SlabApart(a, q, p); }
    }
  }

  lemma InvParts(a: Api)
    requires Inv(a)
    ensures BumpsApart(a) && HugeOk(a) && LiveOk(a) && RecordsOk(a) && SlabsOk(a)
  {
    hide WellFormed, RecordsOk, SlabsOk, StacksOk, HugeOk, TlsfOk, BumpsApart, SlotsKept, LiveOk;
  }

  lemma HugeExtent(a: Api, p: nat)
    requires HugeOk(a) && LiveOk(a) && p in a.live && a.live[p].HugeBlock?
    ensures p in a.huge && a.huge[p] >= 8192 && Extent(a, a.live[p]) == a.huge[p] - 4096
  {
    assert OriginOk(a, p, a.live[p]);
  }

  /** A slot and any other block. */
  lemma SlabApart(a: Api, p: nat, q: nat)
    requires Inv(a) && p in a.live && q in a.live && p != q && a.live[p].SlabSlot?
    ensures Apart(p, Extent(a, a.live[p]), q, Extent(a, a.live[q]))
  {
    hide Inv, Extent;
    StepReady(a);
    Placed(a, p);
    Placed(a, q);
    match a.live[q]
    case SlabSlot(_, _, _, _) => if a.live[p].page == a.live[q].page { SlotsApart(a, p, q); }
    case BumpBlock(r, size) =>
      if a.live[p].page >= r && PageAddr(a.base, a.live[p].page) < q + size { assert false; }
    case _ =>
  }

  // ---------------------------------------------------------------------------------------------
  // Sizes

  /** The state in which a request meets TLSF and the arena. */
  lemma FallbackReady(a: Api, tid: nat, size: nat)
    requires Inv(a) && tid < |a.slabs|
    ensures tid < |a.stacks| == |a.slabs| && Inv(Fallback(a, tid, size)) && Fallback(a, tid, size).live == a.live
    ensures var d := Fallback(a, tid, size);
      WellFormed(d.tlsf) && d.tlsf == a.tlsf && d.huge == a.huge && |d.slabs| == |d.stacks| == |a.slabs|
  {
    hide Inv, Drained;
    StepReady(a);
    if 1 <= size <= 1024 {
      DrainKeeps(a, tid);
      DrainedParts(a, tid);
    }
  }

  /** What malloc has done, by the origin of the pointer it returns. */
  lemma MallocEffect(a: Api, tid: nat, size: nat, region: Option<nat>, a': Api, ptr: nat)
    requires Inv(a) && ApiStep(a, MallocCall(tid, size, region), a', ptr) && ptr != 0
    ensures Inv(a') && ptr in a'.live && size > 0 && size + ALIGN <= USIZE_MAX
    ensures tid < |a.slabs| == |a.stacks| && WellFormed(Fallback(a, tid, size).tlsf)
    ensures match a'.live[ptr]
      case SlabSlot(t, _, c, _) =>
        && t == tid && 1 <= size <= 1024 && c == SizeToClass(size) && a'.tlsf == a.tlsf && a'.huge == a.huge
      case TlsfBlock(b) =>
        && size < 262144 && (a', ptr) == LargeMalloc(Fallback(a, tid, size), size)
        && AbstractHeap.Alloc(a.tlsf, size).0 == Some((b + 1) as nat)
        && a'.tlsf == AbstractHeap.Alloc(a.tlsf, size).1 && a'.huge == a.huge
      case BumpBlock(_, s) =>
        && size < 262144 && (a', ptr) == LargeMalloc(Fallback(a, tid, size), size)
        && AbstractHeap.Alloc(a.tlsf, size).0.None? && s == size && a'.tlsf == a.tlsf && a'.huge == a.huge
      case HugeBlock(total) =>
        && size >= 262144 && region.Some? && (a', ptr) == HugeMalloc(a, size, region) && total == HugeTotal(size)
        && a'.tlsf == a.tlsf
  {
    hide Inv, LargeMalloc, SlabMalloc, HugeTotal, FreshRegion, S.HasPartial, Drained, SmallestFit;
    hide AbstractHeap.Alloc, WellFormed, SizeToClass;
    StepReady(a);
    FallbackReady(a, tid, size);
    if size == 0 {
      MallocNothing(a, tid, region);
    } else if size <= 1024 {
      MallocSmall(a, tid, size, region, SizeToClass(size));
      LargeEffect(Drained(a, tid), size);
    } else if size < 262144 {
      MallocLarge(a, tid, size, region);
      LargeEffect(a, size);
    } else {
      MallocHuge(a, tid, size, region);
    }
  }

  lemma LargeEffect(d: Api, size: nat)
    requires Inv(d) && size > 0 && size + ALIGN <= USIZE_MAX
    ensures WellFormed(d.tlsf)
    ensures var (a', ptr) := LargeMalloc(d, size);
      a'.huge == d.huge && Inv(a') && (ptr != 0 ==>
        && ptr in a'.live
        && (AbstractHeap.Alloc(d.tlsf, size).0.Some? ==>
              && a'.live[ptr].TlsfBlock?
              && AbstractHeap.Alloc(d.tlsf, size).0 == Some((a'.live[ptr].block + 1) as nat)
              && a'.tlsf == AbstractHeap.Alloc(d.tlsf, size).1)
        && (AbstractHeap.Alloc(d.tlsf, size).0.None? ==>
              a'.live[ptr].BumpBlock? && a'.live[ptr].size == size && a'.tlsf == d.tlsf))
  {
    hide Inv, WellFormed, AbstractHeap.Alloc;
    StepReady(d);
    AllocatedPositive(d.tlsf, size);
    LargeMallocKeeps(d, size);
    hide TlsfPtr, PageAddr, PagesFor;
  }

  /** The size ferrum_usable_size reports for what malloc has just returned: the smallest slot size that
      holds the request; for TLSF a multiple of 16 less than 32 bytes above it; for a region whole pages,
      just enough; 0 for a bump block. Every block, bump blocks too, has the bytes asked for. */
  lemma UsableOfMalloc(a: Api, tid: nat, size: nat, region: Option<nat>, a': Api, ptr: nat)
    requires Inv(a) && ApiStep(a, MallocCall(tid, size, region), a', ptr) && ptr != 0
    ensures |a'.records| == PAGES_PER_ARENA && ptr in a'.live && Extent(a', a'.live[ptr]) >= size
    ensures var u := UsableSize(a', ptr);
      match a'.live[ptr]
      case SlabSlot(_, _, _, _) =>
        size <= 1024 && u in SIZE_CLASSES && size <= u && forall c :: c in SIZE_CLASSES && c < u ==> c < size
      case TlsfBlock(_) => u % 16 == 0 && size <= u < size + 32
      case HugeBlock(_) => u % 4096 == 0 && size <= u < size + 4096
      case BumpBlock(_, s) => u == 0 && s == size
  {
    hide Inv, ApiStep, UsableSize, HugeTotal, SizeToClass, ClassToSize, SIZE_CLASSES, AbstractHeap.Alloc, Live;
    hide HugeMalloc, LargeMalloc, Fallback, WellFormed;
    MallocEffect(a, tid, size, region, a', ptr);
    StepReady(a');
    SizeComesFromOrigin(a', ptr);
    match a'.live[ptr]
    case SlabSlot(_, _, _, _) => SmallestSlot(size);
    case TlsfBlock(b) =>
      StepReady(a);
      TlsfWaste(a.tlsf, size, a'.tlsf, b);
    case HugeBlock(_) => HugeTotalHolds(size);
    case BumpBlock(_, _) =>
  }

  lemma TlsfWaste(h: Heap, size: nat, h': Heap, b: nat)
    requires WellFormed(h) && size > 0 && size + ALIGN <= USIZE_MAX
    requires AbstractHeap.Alloc(h, size) == (Some((b + 1) as nat), h')
    ensures b in Live(h'.blocks) && b in h'.blocks && Live(h'.blocks)[b] == h'.blocks[b].n
    ensures size <= 16 * h'.blocks[b].n < size + 32
  {
    hide WellFormed, AbstractHeap.Alloc, Live;
    WasteIsBounded(h, size);
    LiveEntry(h'.blocks, b);
  }

  lemma SmallestSlot(size: nat)
    requires size <= SLAB_MAX_SIZE
    ensures var u := ClassToSize(SizeToClass(size));
      u in SIZE_CLASSES && size <= u && forall c :: c in SIZE_CLASSES && c < u ==> c < size
  {
    var k := SizeToClass(size);
    hide SizeToClass;
    forall c | c in SIZE_CLASSES && c < SIZE_CLASSES[k] ensures c < size {
      var d :| 0 <= d < |SIZE_CLASSES| && SIZE_CLASSES[d] == c;
      if d > k { TableIncreases(k, d); }
    }
  }

  lemma TableIncreases(c: nat, d: nat)
    requires c < d < NUM_SIZE_CLASSES
    ensures SIZE_CLASSES[c] < SIZE_CLASSES[d]
  {
  }

  /** A block keeps its origin and its bytes through every call but its own free. */
  lemma StepKeepsBlock(a: Api, call: Call, a': Api, ptr: nat, q: nat)
    requires Inv(a) && ApiStep(a, call, a', ptr) && q in a.live && (call.FreeCall? ==> call.ptr != q)
    ensures q in a'.live && a'.live[q] == a.live[q] && Extent(a', a'.live[q]) == Extent(a, a.live[q])
  {
    hide Inv, FerrumMalloc, FerrumFree, FreshRegion, Live;
    StepKeeps(a, call, a', ptr);
    if a.live[q].TlsfBlock? {
      var b := a.live[q].block;
      InvParts(a);
      LiveBlock(a, q);
      LiveEntry(a.tlsf.blocks, b);
      LiveEntry(a'.tlsf.blocks, b);
      match call
      case MallocCall(tid, size, region) => MallocKeepsBlocks(a, tid, size, region, a', ptr, b);
      case FreeCall(tid, p) => FreeKeepsBlocks(a, tid, p, a', q);
    }
  }

  lemma MallocKeepsBlocks(a: Api, tid: nat, size: nat, region: Option<nat>, a': Api, ptr: nat, b: nat)
    requires Inv(a) && ApiStep(a, MallocCall(tid, size, region), a', ptr) && b in Live(a.tlsf.blocks)
    ensures b in Live(a'.tlsf.blocks) && Live(a'.tlsf.blocks)[b] == Live(a.tlsf.blocks)[b]
  {
    hide Inv, FerrumMalloc, Live, AbstractHeap.Alloc, LargeMalloc, HugeMalloc, HugeTotal, FreshRegion, WellFormed;
    StepReady(a);
    if ptr == 0 {
      NullKeepsHeap(a, tid, size, region, a');
    } else {
      MallocEffect(a, tid, size, region, a', ptr);
      if a'.live[ptr].TlsfBlock? { AllocAddsOneLive(a.tlsf, size); }
    }
  }

  lemma NullKeepsHeap(a: Api, tid: nat, size: nat, region: Option<nat>, a': Api)
    requires Inv(a) && ApiStep(a, MallocCall(tid, size, region), a', 0)
    ensures a' == Fallback(a, tid, size) && a'.tlsf == a.tlsf
  {
    hide Inv, LargeMalloc, SlabMalloc, HugeTotal, FreshRegion, S.HasPartial, Drained, SmallestFit, SizeToClass, WellFormed;
    hide AbstractHeap.Alloc;
    StepReady(a);
    FallbackReady(a, tid, size);
    if size == 0 {
      MallocNothing(a, tid, region);
    } else if size <= 1024 {
      MallocSmall(a, tid, size, region, SizeToClass(size));
      LargeMallocKeeps(Drained(a, tid), size);
    } else if size < 262144 {
      MallocLarge(a, tid, size, region);
      LargeMallocKeeps(a, size);
    } else {
      MallocHuge(a, tid, size, region);
    }
  }

  lemma FreeKeepsBlocks(a: Api, tid: nat, p: nat, a': Api, q: nat)
    requires Inv(a) && ApiStep(a, FreeCall(tid, p), a', 0) && q in a.live && a.live[q].TlsfBlock? && p != q
    ensures var b := a.live[q].block;
      b in Live(a.tlsf.blocks) && b in Live(a'.tlsf.blocks) && Live(a'.tlsf.blocks)[b] == Live(a.tlsf.blocks)[b]
  {
    hide Inv, FerrumFree, Live, AbstractHeap.Free, S.IsFreeSlot;
    InvParts(a);
    LiveBlock(a, q);
    if p == 0 {
      FreeNull(a, tid);
    } else {
      LiveBlock(a, p);
      FreeEffect(a, tid, p);
    }
  }

  // ---------------------------------------------------------------------------------------------
  // malloc followed by free

  /** A slot taken and freed by the same thread: everything is as before. */
  lemma TakeThenFree(a: Api, t: nat, class_: nat)
    requires Inv(a) && t < |a.slabs| && class_ < NUM_SIZE_CLASSES && S.HasPartial(a.slabs[t], class_)
    ensures var (a', ptr) := TakeSlot(a, t, class_);
      |a'.records| == PAGES_PER_ARENA && t < |a'.slabs| && FerrumFree(a', t, ptr) == a
  {
    hide Inv, RouteFree, SlotAt, S.Pop, S.HasPartial, S.CanPush, SlotAddr;
    var (p, i, r) := S.Pop(a.slabs[t], class_);
    var (a', ptr) := TakeSlot(a, t, class_);
    TakeKeeps(a, t, class_);
    StepReady(a');
    FreeGoesBack(a', t, ptr);
    SlotAtLive(a', ptr);
    SlabReady(a, t);
    S.PushUndoesPop(a.slabs[t], class_);
    assert a'.slabs[t := a.slabs[t]] == a.slabs;
    assert a'.live - {ptr} == a.live;
  }

  lemma SlabReady(a: Api, t: nat)
    requires Inv(a) && t < |a.slabs|
    ensures S.WellFormed(a.slabs[t])
  {
    hide WellFormed, RecordsOk, StacksOk, HugeOk, TlsfOk, BumpsApart, SlotsKept, LiveOk;
  }

  /** malloc followed at once by free by the same thread: the globals are as malloc's first steps, the
      drain of the thread's stack and a new page for its slab, have left them, and otherwise as before.
      Only a bump block keeps its pages. */
  lemma MallocThenFree(a: Api, tid: nat, size: nat, region: Option<nat>, a': Api, ptr: nat)
    requires Inv(a) && ApiStep(a, MallocCall(tid, size, region), a', ptr) && ptr != 0
    ensures tid < |a.slabs| == |a.stacks| && |a'.records| == PAGES_PER_ARENA && tid < |a'.slabs| && ptr in a'.live
    ensures var d, b := Fallback(a, tid, size), FerrumFree(a', tid, ptr);
      match a'.live[ptr]
      case SlabSlot(_, _, c, _) =>
        && c < NUM_SIZE_CLASSES && tid < |d.slabs|
        && (S.HasPartial(d.slabs[tid], c) ==> b == d)
        && (!S.HasPartial(d.slabs[tid], c) ==>
              c < |d.slabs[tid].partials| && d.nextFreePage < |d.records| && b == GrowSlab(d, tid, c))
      case TlsfBlock(_) => b == d
      case HugeBlock(_) => b == a
      case BumpBlock(_, _) => b == a'.(live := a.live)
  {
    hide Inv, ApiStep, FerrumFree, SizeToClass, AbstractHeap.Alloc, Live, HugeTotal, Drained, LargeMalloc;
    hide S.HasPartial, GrowSlab, HugeMalloc, S.IsFreeSlot;
    MallocEffect(a, tid, size, region, a', ptr);
    StepReady(a');
    StepKeeps(a, MallocCall(tid, size, region), a', ptr);
    FallbackReady(a, tid, size);
    SameThreads(a, tid, size, region, a', ptr);
    match a'.live[ptr]
    case SlabSlot(_, _, _, _) => SlabThenFree(a, tid, size, region, a', ptr);
    case TlsfBlock(b) => TlsfThenFree(Fallback(a, tid, size), tid, size, a', ptr);
    case HugeBlock(_) => HugeThenFree(a, tid, size, region, a', ptr);
    case BumpBlock(_, _) => BumpThenFree(a, tid, a', ptr);
  }

  lemma SameThreads(a: Api, tid: nat, size: nat, region: Option<nat>, a': Api, ptr: nat)
    requires ApiStep(a, MallocCall(tid, size, region), a', ptr)
    ensures |a'.slabs| == |a.slabs| && |a'.stacks| == |a.stacks|
  {
    hide WellFormed, AbstractHeap.Alloc, SizeToClass, S.HasPartial, S.Pop, S.AddPage, SlotAddr, FreshRegion;
  }

  lemma SlabThenFree(a: Api, tid: nat, size: nat, region: Option<nat>, a': Api, ptr: nat)
    requires Inv(a) && ApiStep(a, MallocCall(tid, size, region), a', ptr) && ptr != 0
    requires 1 <= size <= 1024 && ptr in a'.live && a'.live[ptr].SlabSlot?
    requires tid < |a.slabs| == |a.stacks| && |a'.records| == PAGES_PER_ARENA && tid < |a'.slabs|
    ensures var d, b, c := Drained(a, tid), FerrumFree(a', tid, ptr), SizeToClass(size);
      && c < NUM_SIZE_CLASSES && tid < |d.slabs|
      && (S.HasPartial(d.slabs[tid], c) ==> b == d)
      && (!S.HasPartial(d.slabs[tid], c) ==>
            c < |d.slabs[tid].partials| && d.nextFreePage < |d.records| && b == GrowSlab(d, tid, c))
  {
    hide Inv, WellFormed, FerrumFree, SizeToClass, TakeSlot, GrowSlab, S.HasPartial, SmallestFit, FreshRegion;
    var d, c := Drained(a, tid), SizeToClass(size);
    MallocSmall(a, tid, size, region, c);
    hide Drained;
    DrainKeeps(a, tid);
    DrainedParts(a, tid);
    StepReady(d);
    if S.HasPartial(d.slabs[tid], c) {
      TakeThenFree(d, tid, c);
    } else if d.nextFreePage < PAGES_PER_ARENA {
      GrowKeeps(d, tid, c);
      TakeKeeps(GrowSlab(d, tid, c), tid, c);
      TakeThenFree(GrowSlab(d, tid, c), tid, c);
    } else {
      LargeIsNoSlot(d, size);
    }
  }

  lemma LargeIsNoSlot(d: Api, size: nat)
    requires Inv(d) && size > 0 && size + ALIGN <= USIZE_MAX && WellFormed(d.tlsf)
    ensures var (a', ptr) := LargeMalloc(d, size); ptr != 0 ==> ptr in a'.live && !a'.live[ptr].SlabSlot?
  {
    hide Inv, WellFormed, AbstractHeap.Alloc, LargeMalloc;
    LargeMallocKeeps(d, size);
  }

  lemma TlsfThenFree(d: Api, tid: nat, size: nat, a': Api, ptr: nat)
    requires Inv(d) && WellFormed(d.tlsf) && size > 0 && size + ALIGN <= USIZE_MAX && tid < |d.slabs|
    requires (a', ptr) == LargeMalloc(d, size) && ptr != 0 && ptr in a'.live && a'.live[ptr].TlsfBlock?
    ensures |a'.records| == PAGES_PER_ARENA && tid < |a'.slabs| && FerrumFree(a', tid, ptr) == d
  {
    hide Inv, WellFormed, AbstractHeap.Alloc, AbstractHeap.Free, RouteFree, PoolBase, PagesFor, PageAddr, Live;
    hide TlsfContains;
    StepReady(d);
    LargeMallocKeeps(d, size);
    StepReady(a');
    FreeGoesBack(a', tid, ptr);
    LivePage(a', ptr);
    NotBump(d, size, a', ptr);
    FreeUndoesAlloc(d.tlsf, size);
    assert a'.live - {ptr} == d.live;
  }

  lemma NotBump(d: Api, size: nat, a': Api, ptr: nat)
    requires WellFormed(d.tlsf) && size + ALIGN <= USIZE_MAX
    requires (a', ptr) == LargeMalloc(d, size) && ptr != 0 && ptr in a'.live && a'.live[ptr].TlsfBlock?
    ensures AbstractHeap.Alloc(d.tlsf, size).0.Some?
  {
    hide WellFormed, AbstractHeap.Alloc;
  }

  lemma HugeThenFree(a: Api, tid: nat, size: nat, region: Option<nat>, a': Api, ptr: nat)
    requires Inv(a) && Inv(a') && tid < |a.slabs| && region.Some? && (a', ptr) == HugeMalloc(a, size, region)
    requires ptr !in a.live
    ensures |a'.records| == PAGES_PER_ARENA && tid < |a'.slabs| && FerrumFree(a', tid, ptr) == a
  {
    hide WellFormed, RouteFree, HugeTotal, RecordsOk, SlabsOk, StacksOk, TlsfOk, BumpsApart, SlotsKept, LiveOk;
    StepReady(a');
    FreeGoesBack(a', tid, ptr);
    assert a'.live - {ptr} == a.live;
    assert a'.huge - {ptr} == a.huge;
  }

  lemma BumpThenFree(a: Api, tid: nat, a': Api, ptr: nat)
    requires Inv(a') && tid < |a'.slabs| && ptr in a'.live && a'.live[ptr].BumpBlock?
    requires ptr !in a.live && a'.live == a.live[ptr := a'.live[ptr]]
    ensures |a'.records| == PAGES_PER_ARENA && FerrumFree(a', tid, ptr) == a'.(live := a.live)
  {
    hide Inv, RouteFree;
    StepReady(a');
    FreeGoesBack(a', tid, ptr);
    assert a'.live - {ptr} == a.live;
  }

  /** A slot that its owner frees at once is the one the owner's next request of the class gets. */
  lemma SlotIsReused(a: Api, tid: nat, size: nat, a': Api, ptr: nat, size': nat)
    requires Inv(a) && ApiStep(a, MallocCall(tid, size, None), a', ptr) && ptr != 0
    requires ptr in a'.live && a'.live[ptr].SlabSlot?
    requires 1 <= size' <= 1024 && SizeToClass(size') == SizeToClass(size)
    ensures size <= 1024 && |a'.records| == PAGES_PER_ARENA && tid < |a'.slabs|
    ensures var b := FerrumFree(a', tid, ptr);
      && Inv(b) && |b.records| == PAGES_PER_ARENA && tid < |b.slabs| == |b.stacks| && WellFormed(b.tlsf)
      && FerrumMalloc(b, tid, size', None).1 == ptr
  {
    hide Inv, WellFormed, FerrumFree, SizeToClass, GrowSlab, S.HasPartial, SmallestFit, S.Pop, SlotAddr;
    MallocEffect(a, tid, size, None, a', ptr);
    StepReady(a');
    SameThreads(a, tid, size, None, a', ptr);
    SlabThenFree(a, tid, size, None, a', ptr);
    FreeEffect(a', tid, ptr);
    var b, d, c := FerrumFree(a', tid, ptr), Drained(a, tid), SizeToClass(size);
    StepReady(b);
    DrainKeeps(a, tid);
    DrainedParts(a, tid);
    MallocSmall(a, tid, size, None, c);
    if !S.HasPartial(d.slabs[tid], c) { GrowKeeps(d, tid, c); GrownParts(d, tid, c); }
    NothingToDrain(b, tid);
    hide Drained;
  }

  lemma GrownParts(d: Api, t: nat, class_: nat)
    requires t < |d.slabs| && class_ < NUM_SIZE_CLASSES && class_ < |d.slabs[t].partials| && d.nextFreePage < |d.records|
    ensures GrowSlab(d, t, class_).stacks == d.stacks
  {
  }

  lemma NothingToDrain(b: Api, t: nat)
    requires t < |b.slabs| && t < |b.stacks| && b.stacks[t] == []
    ensures Drained(b, t) == b
  {
    assert b.slabs[t := b.slabs[t]] == b.slabs && b.stacks[t := b.stacks[t]] == b.stacks;
  }

  // ---------------------------------------------------------------------------------------------
  // Alignment

  /** malloc documents 16-byte alignment. Large, bump and huge blocks have it; a slab slot has it if
      and only if its class is a multiple of 16 or its index is even. */
  lemma MallocAlignment(a: Api, tid: nat, size: nat, region: Option<nat>, a': Api, ptr: nat)
    requires Inv(a) && ApiStep(a, MallocCall(tid, size, region), a', ptr) && ptr != 0
    ensures ptr in a'.live
    ensures match a'.live[ptr]
      case SlabSlot(_, _, c, i) => c < NUM_SIZE_CLASSES && (ptr % 16 == 0 <==> ClassToSize(c) % 16 == 0 || i % 2 == 0)
      case _ => ptr % 16 == 0
  {
    hide Inv, ApiStep, PageAddr, ClassToSize, SlotsPerPage, SizeToClass, AbstractHeap.Alloc, LargeMalloc, HugeTotal;
    MallocEffect(a, tid, size, region, a', ptr);
    StepReady(a');
    match a'.live[ptr]
    case SlabSlot(_, p, c, i) =>
      SlotPlaced(a', ptr);
      SlotAligned(a'.base, p, c, i);
    case TlsfBlock(_) =>
      PoolPlaced(a', ptr);
      PageAligned(a'.base, META_PAGES);
    case BumpBlock(p, _) =>
      BumpPlaced(a', ptr);
      PageAligned(a'.base, p);
    case HugeBlock(_) => RegionAligned(a, tid, size, region, a', ptr);
  }

  lemma RegionAligned(a: Api, tid: nat, size: nat, region: Option<nat>, a': Api, ptr: nat)
    requires ApiStep(a, MallocCall(tid, size, region), a', ptr) && region.Some? && (a', ptr) == HugeMalloc(a, size, region)
    ensures ptr % 16 == 0
  {
    hide WellFormed, AbstractHeap.Alloc, SizeToClass, FerrumMalloc;
    SixteenTimes(region.value / PAGE_SIZE + 1);
    assert ptr == (region.value / PAGE_SIZE + 1) * PAGE_SIZE;
  }

  lemma PageAligned(base: nat, p: nat)
    requires base % PAGE_SIZE == 0
    ensures PageAddr(base, p) % 16 == 0
  {
    SixteenTimes(base / PAGE_SIZE + p);
  }

  lemma SixteenTimes(x: nat)
    ensures x * PAGE_SIZE % 16 == 0 && (x * PAGE_SIZE + 8) % 16 == 8
  {
    OneEight(256 * x);
  }

  lemma OneEight(y: nat)
    ensures 16 * y % 16 == 0 && (16 * y + 8) % 16 == 8
  {
  }

  lemma SlotAligned(base: nat, p: nat, class_: nat, i: nat)
    requires base % PAGE_SIZE == 0 && class_ < NUM_SIZE_CLASSES
    ensures SlotAddr(base, p, class_, i) % 16 == 0 <==> ClassToSize(class_) % 16 == 0 || i % 2 == 0
  {
    var size := ClassToSize(class_);
    hide ClassToSize;
    AlignedAt(PageAddr(base, p), size, size / 8, i);
  }

  lemma AlignedAt(b: nat, size: nat, d: nat, i: nat)
    requires b % 16 == 0 && size == 8 * d
    ensures (b + i * size) % 16 == 0 <==> size % 16 == 0 || i % 2 == 0
  {
    Parity(i, d);
    assert i * size == 8 * (i * d);
    EightTimes(b, i * d);
    EightTimes(0, d);
  }

  lemma EightTimes(b: nat, x: nat)
    requires b % 16 == 0
    ensures (b + 8 * x) % 16 == 0 <==> x % 2 == 0
  {
  }

  lemma {:induction false} Parity(i: nat, d: nat)
    ensures i * d % 2 == 0 <==> d % 2 == 0 || i % 2 == 0
  {
    if i >= 2 {
      Parity(i - 2, d);
      assert i * d == (i - 2) * d + 2 * d;
    }
  }

  /** The promise holds for every slot that may serve a small request exactly when the request is of
      9 to 16 bytes or of more than 24. */
  lemma AlignedRequests(base: nat, page: nat, size: nat)
    requires base % PAGE_SIZE == 0 && RouteMalloc(size).SlabRequest?
    ensures (forall i :: 0 <= i < SlotsPerPage(SizeToClass(size)) ==> SlotAddr(base, page, SizeToClass(size), i) % 16 == 0)
       <==> 8 < size <= 16 || 24 < size
  {
    hide SlotAddr, SizeToClass;
    var c := SizeToClass(size);
    AlignedClass(size, c);
    forall i | 0 <= i < SlotsPerPage(c)
      ensures SlotAddr(base, page, c, i) % 16 == 0 <==> ClassToSize(c) % 16 == 0 || i % 2 == 0
    {
      SlotAligned(base, page, c, i);
    }
    assert SlotAddr(base, page, c, 1) % 16 == 0 <==> ClassToSize(c) % 16 == 0;
  }

  lemma AlignedClass(size: nat, c: nat)
    requires c < NUM_SIZE_CLASSES && SmallestFit(size, c) && size > 0
    ensures ClassToSize(c) % 16 == 0 <==> 8 < size <= 16 || 24 < size
  {
    assert c > 0 ==> SIZE_CLASSES[0] < size;
    assert c > 1 ==> SIZE_CLASSES[1] < size;
    assert c > 2 ==> SIZE_CLASSES[2] < size;
  }

  // ---------------------------------------------------------------------------------------------
  // Runs

  /** After initialisation: the pool taken from the arena and handed to TLSF as one free block, every
      thread with an empty slab and an empty stack. */
  ghost predicate Start(a: Api) {
    && a.base > 0 && a.base % PAGE_SIZE == 0
    && a.records == seq(PAGES_PER_ARENA, _ => PageRecord(NO_CLASS, NO_OWNER))
    && a.nextFreePage == FIRST_FREE_PAGE
    && |a.slabs| == |a.stacks| <= MAX_THREADS
    && (forall t :: 0 <= t < |a.slabs| ==> a.slabs[t] == S.EmptySlab() && a.stacks[t] == [])
    && WellFormed(a.tlsf) && a.tlsf.end == POOL_UNITS - 1
    && a.tlsf.blocks == map[0 := Block(POOL_UNITS - 2, true)]
    && a.huge == map[] && a.live == map[]
  }

  /** Initialisation reaches such a state, for any number of threads; the pool has 512 KB. */
  lemma StartExists(base: nat, threads: nat) returns (a: Api)
    requires base > 0 && base % PAGE_SIZE == 0 && threads <= MAX_THREADS
    ensures Start(a) && a.base == base && |a.slabs| == threads && 16 * (a.tlsf.end + 1) == 512 * 1024
  {
    var n: nat := POOL_UNITS - 2;
    var bins: seq<seq<nat>> := seq(BIN_COUNT, _ => []);
    assert WellFormed(Heap(map[], 0, bins));
    FreshPool(n, bins);
    hide WellFormed, Filed;
    a := Api(base, seq(PAGES_PER_ARENA, _ => PageRecord(NO_CLASS, NO_OWNER)), FIRST_FREE_PAGE,
             seq(threads, _ => S.EmptySlab()), seq(threads, _ => []),
             Heap(map[0 := Block(n, true)], n + 1, Filed(bins, 0, n)), map[], map[]);
  }

  ghost predicate Run(as_: seq<Api>, calls: seq<Call>, ptrs: seq<nat>) {
    && |as_| == |calls| + 1 && |ptrs| == |calls|
    && Start(as_[0])
    && forall i :: 0 <= i < |calls| ==> ApiStep(as_[i], calls[i], as_[i + 1], ptrs[i])
  }

  lemma StartInv(a: Api)
    requires Start(a)
    ensures Inv(a)
  {
    hide WellFormed, SlotsPerPage;
    assert S.WellFormed(S.EmptySlab());
    assert forall b :: b !in Live(a.tlsf.blocks);
  }

  lemma {:induction false} RunInv(as_: seq<Api>, calls: seq<Call>, ptrs: seq<nat>, i: nat)
    requires Run(as_, calls, ptrs) && i < |as_|
    ensures Inv(as_[i])
    decreases i
  {
    hide Inv, ApiStep, Start;
    if i == 0 {
      StartInv(as_[0]);
    } else {
      RunInv(as_, calls, ptrs, i - 1);
      StepKeeps(as_[i - 1], calls[i - 1], as_[i], ptrs[i - 1]);
    }
  }

  /** In every run malloc returns null or a pointer that is not live, and a pointer stops being live by its
      own free only. */
  lemma RunMallocFresh(as_: seq<Api>, calls: seq<Call>, ptrs: seq<nat>, i: nat)
    requires Run(as_, calls, ptrs) && i < |calls|
    ensures match calls[i]
      case FreeCall(_, p) => as_[i + 1].live == as_[i].live - {p}
      case MallocCall(_, _, _) =>
        if ptrs[i] == 0 then as_[i + 1].live == as_[i].live
        else ptrs[i] !in as_[i].live && ptrs[i] in as_[i + 1].live
             && as_[i + 1].live == as_[i].live[ptrs[i] := as_[i + 1].live[ptrs[i]]]
  {
    hide Inv, ApiStep, Start;
    RunInv(as_, calls, ptrs, i);
    StepKeeps(as_[i], calls[i], as_[i + 1], ptrs[i]);
  }

  /** In every reachable state the bytes of different live blocks are different bytes. */
  lemma RunBlocksApart(as_: seq<Api>, calls: seq<Call>, ptrs: seq<nat>, i: nat, p: nat, q: nat)
    requires Run(as_, calls, ptrs) && i < |as_| && p in as_[i].live && q in as_[i].live && p != q
    ensures Apart(p, Extent(as_[i], as_[i].live[p]), q, Extent(as_[i], as_[i].live[q]))
  {
    hide Inv, Run;
    RunInv(as_, calls, ptrs, i);
    LiveBlocksApart(as_[i], p, q);
  }

  /** From the call that returned it until it is freed, a block is live, keeps its origin and its bytes,
      and has at least the bytes asked for, whatever else is allocated or freed meanwhile. */
  lemma {:induction false} RunKeepsBlock(as_: seq<Api>, calls: seq<Call>, ptrs: seq<nat>, i: nat, j: nat, size: nat)
    requires Run(as_, calls, ptrs) && i < j < |as_| && calls[i].MallocCall? && calls[i].size == size && ptrs[i] != 0
    requires forall k :: i < k < j && calls[k].FreeCall? ==> calls[k].ptr != ptrs[i]
    ensures var p := ptrs[i];
      && p in as_[i + 1].live && p in as_[j].live && as_[j].live[p] == as_[i + 1].live[p]
      && Extent(as_[j], as_[j].live[p]) == Extent(as_[i + 1], as_[i + 1].live[p]) >= size
    decreases j
  {
    hide Inv, ApiStep, Start, Extent;
    if j == i + 1 {
      RunInv(as_, calls, ptrs, i);
      UsableOfMalloc(as_[i], calls[i].tid, size, calls[i].region, as_[j], ptrs[i]);
    } else {
      RunKeepsBlock(as_, calls, ptrs, i, j - 1, size);
      RunInv(as_, calls, ptrs, j - 1);
      StepKeepsBlock(as_[j - 1], calls[j - 1], as_[j], ptrs[j - 1], ptrs[i]);
    }
  }

  /** In every reachable state free and usable_size treat a live pointer as what malloc made it: a slot
      goes back to the thread that allocated it, whoever frees it. */
  lemma RunRoutes(as_: seq<Api>, calls: seq<Call>, ptrs: seq<nat>, i: nat, tid: nat, ptr: nat)
    requires Run(as_, calls, ptrs) && i < |as_| && ptr in as_[i].live
    ensures var a := as_[i];
      && |a.records| == PAGES_PER_ARENA
      && RouteFree(a, tid, ptr) == (match a.live[ptr]
         case SlabSlot(t, p, _, _) => if t == tid then ToLocalSlab(p) else ToRemoteStack(t)
         case TlsfBlock(_) => ToTlsf
         case BumpBlock(_, _) => Nowhere
         case HugeBlock(_) => ToHuge)
      && UsableSize(a, ptr) == if a.live[ptr].BumpBlock? then 0 else Extent(a, a.live[ptr])
  {
    RunInv(as_, calls, ptrs, i);
    var a := as_[i];
    hide Run, Inv, UsableSize, RouteFree, WellFormed, Live;
    StepReady(a);
    FreeGoesBack(a, tid, ptr);
    SizeComesFromOrigin(a, ptr);
    if a.live[ptr].TlsfBlock? { LiveEntry(a.tlsf.blocks, a.live[ptr].block); }
  }

  /** Nothing is lost: in every reachable state each slot in use has a live pointer of its own or is on its
      owner's stack, each used TLSF block and each region has its live pointer. */
  lemma RunLosesNothing(as_: seq<Api>, calls: seq<Call>, ptrs: seq<nat>, i: nat)
    requires Run(as_, calls, ptrs) && i < |as_|
    ensures var a := as_[i];
      && |a.slabs| == |a.stacks|
      && (forall t: nat, p: nat, j: nat :: t < |a.slabs| && S.IsUsedSlot(a.slabs[t], p, j) ==>
            S.Slot(p, j) in a.stacks[t]
            || (exists q :: q in a.live && a.live[q] == SlabSlot(t, p, a.slabs[t].pages[p].class_, j)))
      && (forall b :: b in a.tlsf.blocks && !a.tlsf.blocks[b].free ==>
            exists q :: q in a.live && a.live[q] == TlsfBlock(b))
      && (forall q :: q in a.huge ==> q in a.live && a.live[q] == HugeBlock(a.huge[q]))
  {
    RunInv(as_, calls, ptrs, i);
    var a := as_[i];
    hide Run, WellFormed, RecordsOk, SlabsOk, StacksOk, LiveOk, BumpsApart, Live;
    StepReady(a);
    forall t: nat, p: nat, j: nat | t < |a.slabs| && S.IsUsedSlot(a.slabs[t], p, j)
      ensures S.Slot(p, j) in a.stacks[t]
              || exists q :: q in a.live && a.live[q] == SlabSlot(t, p, a.slabs[t].pages[p].class_, j)
    {
      assert InUse(a, t, p, j);
    }
    forall b | b in a.tlsf.blocks && !a.tlsf.blocks[b].free
      ensures exists q :: q in a.live && a.live[q] == TlsfBlock(b)
    {
      LiveEntry(a.tlsf.blocks, b);
      assert TlsfPtr(a, b) in a.live;
    }
  }

  /** When everything has been freed and drained, the pool is one free block again, every slot of every slab
      is free and no region is left. */
  lemma AllFreed(a: Api)
    requires Inv(a) && a.live == map[] && forall t :: 0 <= t < |a.stacks| ==> a.stacks[t] == []
    ensures a.tlsf.blocks == map[0 := Block(32766, true)] && a.huge == map[]
    ensures forall t: nat, p: nat, i: nat :: t < |a.slabs| ==> !S.IsUsedSlot(a.slabs[t], p, i)
  {
    hide RecordsOk, SlabsOk, StacksOk, LiveOk, BumpsApart;
    StepReady(a);
    forall t: nat, p: nat, i: nat | t < |a.slabs| ensures !S.IsUsedSlot(a.slabs[t], p, i) {
      assert !InUse(a, t, p, i);
    }
    assert Live(a.tlsf.blocks) == map[];
    hide SlotsKept;
    NothingLiveOneBlock(a.tlsf);
    assert forall q :: q !in a.huge;
  }

  /** Twice malloc(8) on a fresh allocator: the second pointer is 8 past a multiple of 16. */
  lemma MisalignedRun(base: nat) returns (as_: seq<Api>, ptrs: seq<nat>)
    requires base > 0 && base % PAGE_SIZE == 0
    ensures |ptrs| == 2 && Run(as_, [MallocCall(0, 8, None), MallocCall(0, 8, None)], ptrs)
    ensures ptrs[1] % 16 == 8
  {
    var a := StartExists(base, 1);
    SmallestFitUnique(8, SizeToClass(8), 0);
    var p := FIRST_FREE_PAGE;
    var b := GrowSlab(a, 0, 0);
    FirstTwoSlots(p);
    var (c, ptr) := TakeSlot(b, 0, 0);
    var (d, ptr') := TakeSlot(c, 0, 0);
    NothingToDrain(a, 0);
    NothingToDrain(c, 0);
    hide Start, SizeToClass, Drained;
    as_, ptrs := [a, c, d], [ptr, ptr'];
    assert ApiStep(a, MallocCall(0, 8, None), c, ptr);
    assert ApiStep(c, MallocCall(0, 8, None), d, ptr');
    SixteenTimes(base / PAGE_SIZE + p);
  }

  /** What two allocations from a slab's first page of 8-byte slots take. */
  lemma FirstTwoSlots(p: nat)
    ensures !S.HasPartial(S.EmptySlab(), 0)
    ensures var s := S.AddPage(S.EmptySlab(), p, 0);
      && S.HasPartial(s, 0) && S.Pop(s, 0).0 == p && S.Pop(s, 0).1 == 0
      && var r := S.Pop(s, 0).2;
      && S.HasPartial(r, 0) && S.Pop(r, 0).0 == p && S.Pop(r, 0).1 == 1 && |r.partials| == NUM_SIZE_CLASSES
  {
  }
}
