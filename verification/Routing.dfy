/** How `ferrum_malloc`, `ferrum_free` and `ferrum_usable_size` route a request or a pointer to the
    component that serves it, over whole sequences of API calls by any number of threads. */
module Routing {
  import opened Arithmetic
  import opened Lists
  import opened SizeClass
  import opened ArenaLayout
  import opened SlabMemory
  import opened Bins
  import opened AbstractHeap
  import opened HeapTheorems
  import S = AbstractSlab

  const HUGE_ALLOC_THRESHOLD: nat := 0x4_0000
  const MAX_THREADS: nat := 128
  const POOL_PAGES: nat := 128
  const POOL_BYTES: nat := POOL_PAGES * PAGE_SIZE
  const POOL_UNITS: nat := POOL_BYTES / 16
  const FIRST_FREE_PAGE: nat := META_PAGES + POOL_PAGES

  /** The component that produced a pointer; for a slot, the thread whose slab handed it out; for a bump
      allocation, the size requested. */
  datatype Origin =
    | SlabSlot(owner: nat, page: nat, class_: nat, idx: nat)
    | TlsfBlock(block: nat)
    | BumpBlock(page: nat, size: nat)
    | HugeBlock(total: nat)

  datatype PageRecord = PageRecord(sizeClass: nat, ownerId: nat)

  /** The globals an API call consults, each thread's slab and its stack of slots that other threads have
      freed (top first), and the origin of every live pointer. */
  datatype Api = Api(base: nat, records: seq<PageRecord>, nextFreePage: nat, slabs: seq<S.Slab>,
                     stacks: seq<seq<S.Slot>>, tlsf: Heap, huge: map<nat, nat>, live: map<nat, Origin>)

  datatype Route =
    | ToLocalSlab(page: nat)
    | ToRemoteStack(owner: nat)
    | ToGlobalSlab
    | ToTlsf
    | ToHuge
    | Nowhere

  function PoolBase(a: Api): nat {
    PageAddr(a.base, META_PAGES)
  }

  predicate TlsfContains(a: Api, ptr: nat) {
    PoolBase(a) <= ptr < PoolBase(a) + POOL_BYTES
  }

  /** ferrum_free, called by thread `tid`. */
  function RouteFree(a: Api, tid: nat, ptr: nat): Route
    requires |a.records| == PAGES_PER_ARENA
  {
    if ptr == 0 then Nowhere
    else
      var page := PtrToPageIndex(a.base, ptr);
      if InArena(a.base, ptr) && page > 0 && a.records[page].sizeClass != NO_CLASS && a.records[page].ownerId == tid then
        ToLocalSlab(page)
      else if InArena(a.base, ptr) && page > 0 && a.records[page].sizeClass != NO_CLASS
              && a.records[page].ownerId != NO_OWNER then
        ToRemoteStack(a.records[page].ownerId)
      // the locked path
      else if InArena(a.base, ptr) then
        if page > 0 then
          if a.records[page].sizeClass != NO_CLASS then ToGlobalSlab
          else if TlsfContains(a, ptr) then ToTlsf
          else Nowhere
        else Nowhere
      else ToHuge
  }

  /** ferrum_usable_size. */
  function UsableSize(a: Api, ptr: nat): nat
    requires |a.records| == PAGES_PER_ARENA
  {
    if ptr == 0 then 0
    else if InArena(a.base, ptr) then
      var page := PtrToPageIndex(a.base, ptr);
      if page > 0 then
        if a.records[page].sizeClass != NO_CLASS then
          if a.records[page].sizeClass < NUM_SIZE_CLASSES then ClassToSize(a.records[page].sizeClass) else 0
        else if TlsfContains(a, ptr) then TlsfUsable(a, ptr)
        else 0
      else 0
    else if ptr in a.huge && a.huge[ptr] >= PAGE_SIZE then a.huge[ptr] - PAGE_SIZE
    else 0
  }

  /** The payload size in the header in front of ptr. */
  function TlsfUsable(a: Api, ptr: nat): nat
    requires TlsfContains(a, ptr)
  {
    var u := (ptr - PoolBase(a)) / 16;
    if u >= 1 && u - 1 in a.tlsf.blocks then 16 * a.tlsf.blocks[u - 1].n else 0
  }

  function TlsfPtr(a: Api, b: nat): nat {
    PoolBase(a) + 16 * (b + 1)
  }

  // ---------------------------------------------------------------------------------------------
  // The invariant

  ghost predicate RecordsOk(a: Api) {
    && |a.records| == PAGES_PER_ARENA
    && FIRST_FREE_PAGE <= a.nextFreePage <= PAGES_PER_ARENA
    && (forall p :: 0 <= p < PAGES_PER_ARENA && a.records[p].sizeClass != NO_CLASS ==>
          FIRST_FREE_PAGE <= p < a.nextFreePage)
  }

  /** A page of a slab has a record that says so. */
  ghost predicate PageOwned(a: Api, t: nat, p: nat)
    requires t < |a.slabs| && p in a.slabs[t].pages
  {
    p < |a.records| && a.records[p] == PageRecord(a.slabs[t].pages[p].class_, t)
  }

  ghost predicate SlabsOk(a: Api) {
    && |a.slabs| <= MAX_THREADS
    && (forall t :: 0 <= t < |a.slabs| ==> S.WellFormed(a.slabs[t]))
    && (forall t, p :: 0 <= t < |a.slabs| && p in a.slabs[t].pages ==> PageOwned(a, t, p))
  }

  /** Slot i of page p is in use on thread t's slab. */
  predicate InUse(a: Api, t: nat, p: nat, i: nat) {
    t < |a.slabs| && S.IsUsedSlot(a.slabs[t], p, i)
  }

  /** The slots on a thread's stack are distinct, and in use on that thread's slab. */
  ghost predicate StacksOk(a: Api) {
    && |a.stacks| == |a.slabs|
    && (forall t :: 0 <= t < |a.stacks| ==> S.DistinctSlots(a.stacks[t]))
    && (forall t, x :: 0 <= t < |a.stacks| && x in a.stacks[t] ==> InUse(a, t, x.page, x.idx))
  }

  /** Two ranges of addresses, given by start and length, have none in common. */
  predicate Apart(lo: nat, size: nat, lo': nat, size': nat) {
    lo + size <= lo' || lo' + size' <= lo
  }

  /** Regions mapped for huge blocks: each starts a page before its pointer, which is live; they lie
      outside the arena and do not overlap. */
  ghost predicate HugeOk(a: Api) {
    && (forall q :: q in a.huge ==>
          && q > PAGE_SIZE && a.huge[q] >= 2 * PAGE_SIZE && Apart(q - PAGE_SIZE, a.huge[q], a.base, ARENA_SIZE)
          && q in a.live && a.live[q] == HugeBlock(a.huge[q]))
    && (forall q, r {:trigger a.huge[q], a.huge[r]} :: q in a.huge && r in a.huge && q != r ==>
          q > PAGE_SIZE && r > PAGE_SIZE && Apart(q - PAGE_SIZE, a.huge[q], r - PAGE_SIZE, a.huge[r]))
  }

  /** The pages of a bump block are handed out and belong to no size class. */
  ghost predicate BumpOk(a: Api, p: nat, size: nat) {
    && FIRST_FREE_PAGE <= p < PAGES_PER_ARENA && size > 0 && p * PAGE_SIZE + size <= a.nextFreePage * PAGE_SIZE
    && a.nextFreePage <= |a.records|
    && forall q :: p <= q < a.nextFreePage && q * PAGE_SIZE < p * PAGE_SIZE + size ==> a.records[q].sizeClass == NO_CLASS
  }

  ghost predicate OriginOk(a: Api, ptr: nat, o: Origin) {
    match o
    case SlabSlot(t, p, c, i) =>
      && InUse(a, t, p, i) && t < |a.stacks| && a.slabs[t].pages[p].class_ == c
      && S.Slot(p, i) !in a.stacks[t] && ptr == SlotAddr(a.base, p, c, i)
    case TlsfBlock(b) => b in Live(a.tlsf.blocks) && ptr == TlsfPtr(a, b)
    case BumpBlock(p, size) => BumpOk(a, p, size) && ptr == PageAddr(a.base, p)
    case HugeBlock(total) => ptr in a.huge && a.huge[ptr] == total
  }

  /** Bump blocks do not overlap. */
  ghost predicate BumpsApart(a: Api) {
    forall p, q {:trigger a.live[p], a.live[q]} ::
      p in a.live && q in a.live && a.live[p].BumpBlock? && a.live[q].BumpBlock? && p != q ==>
        Apart(p, a.live[p].size, q, a.live[q].size)
  }

  /** The slot has a live pointer. */
  ghost predicate HasPointer(a: Api, t: nat, p: nat, i: nat)
    requires InUse(a, t, p, i)
  {
    var c := a.slabs[t].pages[p].class_;
    var ptr := SlotAddr(a.base, p, c, i);
    ptr in a.live && a.live[ptr] == SlabSlot(t, p, c, i)
  }

  /** No slot is lost: one that is in use has a live pointer or is on its owner's stack. */
  ghost predicate SlotsKept(a: Api) {
    forall t: nat, p: nat, i: nat {:trigger InUse(a, t, p, i)} :: InUse(a, t, p, i) && t < |a.stacks| ==>
      S.Slot(p, i) in a.stacks[t] || HasPointer(a, t, p, i)
  }

  ghost predicate TlsfOk(a: Api) {
    && WellFormed(a.tlsf) && a.tlsf.end == POOL_UNITS - 1
    && (forall b :: b in Live(a.tlsf.blocks) ==> TlsfPtr(a, b) in a.live && a.live[TlsfPtr(a, b)] == TlsfBlock(b))
  }

  ghost predicate LiveOk(a: Api) {
    forall ptr :: ptr in a.live ==> OriginOk(a, ptr, a.live[ptr])
  }

  ghost predicate Inv(a: Api) {
    && a.base > 0 && a.base % PAGE_SIZE == 0
    && RecordsOk(a) && SlabsOk(a) && StacksOk(a) && HugeOk(a) && TlsfOk(a)
    && LiveOk(a) && BumpsApart(a) && SlotsKept(a)
  }

  // ---------------------------------------------------------------------------------------------
  // Where live pointers lie

  /** The record of a slab's page. */
  lemma OwnedRecord(a: Api, t: nat, p: nat)
    requires RecordsOk(a) && SlabsOk(a) && t < |a.slabs| && p in a.slabs[t].pages
    ensures FIRST_FREE_PAGE <= p < a.nextFreePage <= PAGES_PER_ARENA
    ensures a.records[p] == PageRecord(a.slabs[t].pages[p].class_, t) && t != NO_OWNER
    ensures a.slabs[t].pages[p].class_ < NUM_SIZE_CLASSES && S.PageOk(a.slabs[t].pages[p])
    ensures |a.slabs[t].partials| == NUM_SIZE_CLASSES
  {
    assert PageOwned(a, t, p) && S.WellFormed(a.slabs[t]);
    hide SlotsPerPage;
    assert S.PageOk(a.slabs[t].pages[p]);
  }

  lemma UsedSlotPlace(a: Api, t: nat, p: nat, i: nat)
    requires RecordsOk(a) && SlabsOk(a) && InUse(a, t, p, i)
    ensures FIRST_FREE_PAGE <= p < a.nextFreePage <= PAGES_PER_ARENA
    ensures a.records[p] == PageRecord(a.slabs[t].pages[p].class_, t) && t != NO_OWNER
    ensures var c := a.slabs[t].pages[p].class_;
      && c < NUM_SIZE_CLASSES && i < SlotsPerPage(c)
      && var ptr := SlotAddr(a.base, p, c, i);
      && InArena(a.base, ptr) && PtrToPageIndex(a.base, ptr) == p
      && PageAddr(a.base, p) <= ptr && SlotIndex(a.base, p, c, ptr) == i
  {
    hide RecordsOk, SlabsOk, SlotsPerPage, ClassToSize;
    OwnedRecord(a, t, p);
    SlotRoundTrip(a.base, p, a.slabs[t].pages[p].class_, i);
  }

  lemma PoolPage(a: Api, b: nat)
    requires RecordsOk(a) && TlsfOk(a) && b in Live(a.tlsf.blocks)
    ensures var ptr := TlsfPtr(a, b);
      && InArena(a.base, ptr) && TlsfContains(a, ptr) && 0 < PtrToPageIndex(a.base, ptr) < FIRST_FREE_PAGE
      && a.records[PtrToPageIndex(a.base, ptr)].sizeClass == NO_CLASS
      && (ptr - PoolBase(a)) / 16 == b + 1 && b in a.tlsf.blocks && Live(a.tlsf.blocks)[b] == a.tlsf.blocks[b].n
  {
    LivePayloadsDisjoint(a.tlsf, b, b);
    assert b + 1 < POOL_UNITS;
  }

  /** The page a live pointer lies on; a huge pointer lies outside the arena. */
  lemma LivePage(a: Api, ptr: nat)
    requires Inv(a) && ptr in a.live
    ensures ptr > 0 && OriginOk(a, ptr, a.live[ptr])
    ensures match a.live[ptr]
      case SlabSlot(t, p, c, i) =>
        && InArena(a.base, ptr) && PtrToPageIndex(a.base, ptr) == p && FIRST_FREE_PAGE <= p < a.nextFreePage
        && c < NUM_SIZE_CLASSES && a.records[p] == PageRecord(c, t) && t != NO_OWNER
        && PageAddr(a.base, p) <= ptr && SlotIndex(a.base, p, c, ptr) == i
      case TlsfBlock(b) =>
        && InArena(a.base, ptr) && 0 < PtrToPageIndex(a.base, ptr) < FIRST_FREE_PAGE && TlsfContains(a, ptr)
        && a.records[PtrToPageIndex(a.base, ptr)].sizeClass == NO_CLASS
        && (ptr - PoolBase(a)) / 16 == b + 1 && b in Live(a.tlsf.blocks) && b in a.tlsf.blocks
        && Live(a.tlsf.blocks)[b] == a.tlsf.blocks[b].n
      case BumpBlock(p, _) =>
        && InArena(a.base, ptr) && PtrToPageIndex(a.base, ptr) == p && FIRST_FREE_PAGE <= p < a.nextFreePage
        && !TlsfContains(a, ptr) && a.records[p].sizeClass == NO_CLASS
      case HugeBlock(total) => !InArena(a.base, ptr) && total >= PAGE_SIZE && ptr in a.huge && a.huge[ptr] == total
  {
    hide WellFormed, Live, SlotsPerPage, ClassToSize, S.WellFormed;
    assert OriginOk(a, ptr, a.live[ptr]);
    match a.live[ptr]
    case SlabSlot(t, p, c, i) => UsedSlotPlace(a, t, p, i);
    case TlsfBlock(b) => PoolPage(a, b);
    case BumpBlock(p, _) => assert PtrToPageIndex(a.base, ptr) == p;
    case HugeBlock(_) => assert a.huge[ptr] >= 2 * PAGE_SIZE;
  }

  /** Every pointer goes back to the component it came from: a slot to the slab of the thread that
      handed it out, directly or through that thread's stack, TLSF blocks to TLSF, huge blocks to the
      huge path, bump blocks nowhere. */
  lemma FreeGoesBack(a: Api, tid: nat, ptr: nat)
    requires Inv(a) && ptr in a.live
    ensures RouteFree(a, tid, ptr) == match a.live[ptr]
      case SlabSlot(t, p, _, _) => if t == tid then ToLocalSlab(p) else ToRemoteStack(t)
      case TlsfBlock(_) => ToTlsf
      case BumpBlock(_, _) => Nowhere
      case HugeBlock(_) => ToHuge
  {
    LivePage(a, ptr);
    hide Inv, OriginOk, InArena, PtrToPageIndex, TlsfContains;
  }

  lemma TlsfSize(a: Api, ptr: nat, b: nat)
    requires TlsfContains(a, ptr) && (ptr - PoolBase(a)) / 16 == b + 1 && b in a.tlsf.blocks
    ensures TlsfUsable(a, ptr) == 16 * a.tlsf.blocks[b].n
  {
  }

  /** ferrum_usable_size asks the same component. */
  lemma SizeComesFromOrigin(a: Api, ptr: nat)
    requires Inv(a) && ptr in a.live
    ensures match a.live[ptr]
      case SlabSlot(_, _, c, _) => c < NUM_SIZE_CLASSES && UsableSize(a, ptr) == ClassToSize(c)
      case TlsfBlock(b) => b in Live(a.tlsf.blocks) && UsableSize(a, ptr) == 16 * Live(a.tlsf.blocks)[b]
      case BumpBlock(_, _) => UsableSize(a, ptr) == 0
      case HugeBlock(total) => total >= PAGE_SIZE && UsableSize(a, ptr) == total - PAGE_SIZE
  {
    LivePage(a, ptr);
    if a.live[ptr].TlsfBlock? { TlsfSize(a, ptr, a.live[ptr].block); }
    hide Inv, OriginOk, InArena, PtrToPageIndex, TlsfContains, TlsfUsable, PoolBase, Live, ClassToSize, SlotIndex, PageAddr;
  }

  // ---------------------------------------------------------------------------------------------
  // The calls

  /** Where ferrum_malloc looks first. */
  datatype Request = NoRequest | HugeRequest | SlabRequest(class_: nat) | LargeRequest

  function RouteMalloc(size: nat): Request {
    if size == 0 then NoRequest
    else if size >= HUGE_ALLOC_THRESHOLD then HugeRequest
    else if size <= SLAB_MAX_SIZE then SlabRequest(SizeToClass(size))
    else LargeRequest
  }

  function PagesFor(size: nat): nat {
    (size + PAGE_SIZE - 1) / PAGE_SIZE
  }

  function HugeTotal(size: nat): nat {
    (size + PAGE_SIZE + PAGE_SIZE - 1) / PAGE_SIZE * PAGE_SIZE
  }

  /** arena.alloc writes NO_CLASS into the records of the pages it takes. */
  function BumpedRecords(records: seq<PageRecord>, lo: nat, hi: nat): seq<PageRecord> {
    seq(|records|, i requires 0 <= i < |records| =>
      if lo <= i < hi then records[i].(sizeClass := NO_CLASS) else records[i])
  }

  /** Thread t takes the first free slot of its first partial page. */
  function TakeSlot(a: Api, t: nat, class_: nat): (Api, nat)
    requires t < |a.slabs| && class_ < NUM_SIZE_CLASSES && S.HasPartial(a.slabs[t], class_)
  {
    var (p, i, r) := S.Pop(a.slabs[t], class_);
    var ptr := SlotAddr(a.base, p, class_, i);
    (a.(slabs := a.slabs[t := r], live := a.live[ptr := SlabSlot(t, p, class_, i)]), ptr)
  }

  /** The arena's next page joins thread t's slab. */
  function GrowSlab(a: Api, t: nat, class_: nat): Api
    requires t < |a.slabs| && class_ < NUM_SIZE_CLASSES && class_ < |a.slabs[t].partials|
    requires a.nextFreePage < |a.records|
  {
    var p := a.nextFreePage;
    a.(records := a.records[p := PageRecord(class_, t)], nextFreePage := p + 1,
       slabs := a.slabs[t := S.AddPage(a.slabs[t], p, class_)])
  }

  /** The slot at an address, from the record of its page. */
  function SlotAt(a: Api, ptr: nat): S.Slot
    requires |a.records| == PAGES_PER_ARENA
  {
    var p := PtrToPageIndex(a.base, ptr);
    var c := a.records[p].sizeClass;
    S.Slot(p, if c < NUM_SIZE_CLASSES && PageAddr(a.base, p) <= ptr then SlotIndex(a.base, p, c, ptr) else 0)
  }

  /** Thread t frees, in order, all slots on its stack. */
  function Drained(a: Api, t: nat): Api
    requires t < |a.slabs| && t < |a.stacks|
  {
    a.(slabs := a.slabs[t := S.FreeInOrder(a.slabs[t], a.stacks[t])], stacks := a.stacks[t := []])
  }

  /** A slot from a partial page, from a new page, or none (address 0) when the arena is full. */
  function SlabMalloc(a: Api, t: nat, class_: nat): (Api, nat)
    requires t < |a.slabs| && class_ < NUM_SIZE_CLASSES && |a.records| == PAGES_PER_ARENA
  {
    if S.HasPartial(a.slabs[t], class_) then TakeSlot(a, t, class_)
    else if a.nextFreePage >= PAGES_PER_ARENA || class_ >= |a.slabs[t].partials| then (a, 0)
    else
      var g := GrowSlab(a, t, class_);
      if S.HasPartial(g.slabs[t], class_) then TakeSlot(g, t, class_) else (a, 0)
  }

  /** arena.alloc, the last resort. */
  function BumpMalloc(a: Api, size: nat): (Api, nat) {
    var end := a.nextFreePage + PagesFor(size);
    if size == 0 || end > PAGES_PER_ARENA then (a, 0)
    else
      var ptr := PageAddr(a.base, a.nextFreePage);
      (a.(records := BumpedRecords(a.records, a.nextFreePage, end), nextFreePage := end,
          live := a.live[ptr := BumpBlock(a.nextFreePage, size)]), ptr)
  }

  /** TLSF and, if that has nothing, the arena. */
  ghost function LargeMalloc(a: Api, size: nat): (Api, nat)
    requires WellFormed(a.tlsf) && size + ALIGN <= USIZE_MAX
  {
    var (p, h) := AbstractHeap.Alloc(a.tlsf, size);
    match p
    case None => BumpMalloc(a, size)
    case Some(u) =>
      var ptr := TlsfPtr(a, u - 1);
      (a.(tlsf := h, live := a.live[ptr := TlsfBlock(u - 1)]), ptr)
  }

  /** A region from the operating system, its first page kept for the header. */
  function HugeMalloc(a: Api, size: nat, region: Option<nat>): (Api, nat) {
    match region
    case None => (a, 0)
    case Some(r) =>
      var ptr := r + PAGE_SIZE;
      (a.(huge := a.huge[ptr := HugeTotal(size)], live := a.live[ptr := HugeBlock(HugeTotal(size))]), ptr)
  }

  /** ferrum_malloc, called by thread `tid`; `region` is what the operating system answers if asked. */
  ghost function FerrumMalloc(a: Api, tid: nat, size: nat, region: Option<nat>): (Api, nat)
    requires WellFormed(a.tlsf) && size + ALIGN <= USIZE_MAX && |a.records| == PAGES_PER_ARENA
    requires tid < |a.slabs| == |a.stacks|
  {
    match RouteMalloc(size)
    case NoRequest => (a, 0)
    case HugeRequest => HugeMalloc(a, size, region)
    case LargeRequest => LargeMalloc(a, size)
    case SlabRequest(class_) =>
      var (b, ptr) := SlabMalloc(Drained(a, tid), tid, class_);
      if ptr != 0 then (b, ptr) else LargeMalloc(b, size)
  }

  /** slab.free of slot x by its owner t. */
  function Returned(a: Api, t: nat, x: S.Slot): Api
    requires t < |a.slabs|
  {
    if S.CanPush(a.slabs[t], x) then a.(slabs := a.slabs[t := S.Push(a.slabs[t], x.page, x.idx)]) else a
  }

  /** A push on the stack of thread `owner`, if there is one. */
  function Stacked(a: Api, owner: nat, x: S.Slot): Api {
    if owner < |a.stacks| then a.(stacks := a.stacks[owner := [x] + a.stacks[owner]]) else a
  }

  ghost function TlsfFree(a: Api, ptr: nat): Api {
    var u := (ptr - PoolBase(a)) / 16;
    if u >= 1 && u - 1 in a.tlsf.blocks then a.(tlsf := AbstractHeap.Free(a.tlsf, u - 1)) else a
  }

  /** ferrum_free, called by thread `tid`. The global slab has no pages: a free it is sent is lost. */
  ghost function FerrumFree(a: Api, tid: nat, ptr: nat): Api
    requires |a.records| == PAGES_PER_ARENA && tid < |a.slabs|
  {
    var b := match RouteFree(a, tid, ptr)
      case ToLocalSlab(_) => Returned(a, tid, SlotAt(a, ptr))
      case ToRemoteStack(owner) => Stacked(a, owner, SlotAt(a, ptr))
      case ToTlsf => TlsfFree(a, ptr)
      case ToHuge => a.(huge := a.huge - {ptr})
      case ToGlobalSlab => a
      case Nowhere => a;
    b.(live := b.live - {ptr})
  }

  datatype Call =
    | MallocCall(tid: nat, size: nat, region: Option<nat>)
    | FreeCall(tid: nat, ptr: nat)

  /** The operating system maps a region that overlaps neither the arena nor another region. */
  ghost predicate FreshRegion(a: Api, region: nat, total: nat) {
    && region > 0 && region % PAGE_SIZE == 0
    && Apart(region, total, a.base, ARENA_SIZE)
    && forall q :: q in a.huge && q > PAGE_SIZE ==> Apart(region, total, q - PAGE_SIZE, a.huge[q])
  }

  /** What the source demands of a caller, a size that does not overflow and a pointer that is null or
      live, and of the operating system. */
  ghost predicate MayCall(a: Api, call: Call) {
    match call
    case MallocCall(tid, size, region) =>
      tid < |a.slabs| && size + 2 * PAGE_SIZE <= USIZE_MAX
      && (region.Some? ==> FreshRegion(a, region.value, HugeTotal(size)))
    case FreeCall(tid, ptr) => tid < |a.slabs| && (ptr == 0 || ptr in a.live)
  }

  /** One API call takes the globals from a to a' and returns `ptr` (0 for free). */
  ghost predicate ApiStep(a: Api, call: Call, a': Api, ptr: nat) {
    && |a.records| == PAGES_PER_ARENA && WellFormed(a.tlsf) && |a.slabs| == |a.stacks| && MayCall(a, call)
    && match call
       case MallocCall(tid, size, region) => (a', ptr) == FerrumMalloc(a, tid, size, region)
       case FreeCall(tid, p) => a' == FerrumFree(a, tid, p) && ptr == 0
  }
}
