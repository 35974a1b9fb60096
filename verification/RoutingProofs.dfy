/** Every API call keeps the invariant of the globals. */
module RoutingProofs {
  import opened Arithmetic
  import opened Lists
  import opened SizeClass
  import opened ArenaLayout
  import opened SlabMemory
  import opened Bins
  import opened AbstractHeap
  import opened HeapTheorems
  import opened Routing
  import S = AbstractSlab

  lemma StepReady(a: Api)
    requires Inv(a)
    ensures |a.records| == PAGES_PER_ARENA && WellFormed(a.tlsf) && |a.slabs| == |a.stacks| <= MAX_THREADS
    ensures a.base > 0 && a.base % PAGE_SIZE == 0 && FIRST_FREE_PAGE <= a.nextFreePage <= PAGES_PER_ARENA
  {
  }

  // ---------------------------------------------------------------------------------------------
  // What a change of the live pointers keeps

  lemma HugeKept(a: Api, a': Api)
    requires HugeOk(a) && a'.huge == a.huge && a'.base == a.base
    requires forall q :: q in a.huge ==> q in a'.live && a'.live[q] == a.live[q]
    ensures HugeOk(a')
  {
  }

  lemma BumpsKept(a: Api, a': Api)
    requires BumpsApart(a)
    requires forall q :: q in a'.live && a'.live[q].BumpBlock? ==> q in a.live && a.live[q] == a'.live[q]
    ensures BumpsApart(a')
  {
  }

  lemma TlsfKept(a: Api, a': Api)
    requires TlsfOk(a) && a'.tlsf == a.tlsf && a'.base == a.base
    requires forall q :: q in a.live && a.live[q].TlsfBlock? ==> q in a'.live && a'.live[q] == a.live[q]
    ensures TlsfOk(a')
  {
    hide WellFormed, Live;
    forall b | b in Live(a'.tlsf.blocks) ensures TlsfPtr(a', b) in a'.live && a'.live[TlsfPtr(a', b)] == TlsfBlock(b) {
      assert TlsfPtr(a, b) in a.live && a.live[TlsfPtr(a, b)] == TlsfBlock(b);
    }
  }

  /** A new pointer to a slot, or none. */
  lemma AddedSlot(a: Api, a': Api, ptr: nat)
    requires HugeOk(a) && TlsfOk(a) && BumpsApart(a) && a'.base == a.base && a'.tlsf == a.tlsf && a'.huge == a.huge
    requires a'.live == a.live || (ptr !in a.live && ptr in a'.live && a'.live == a.live[ptr := a'.live[ptr]]
                                   && a'.live[ptr].SlabSlot?)
    ensures HugeOk(a') && TlsfOk(a') && BumpsApart(a')
  {
    hide WellFormed, Live, HugeOk, TlsfOk, BumpsApart;
    forall q | q in a.huge ensures q in a.live { HugeIsLive(a, q); }
    HugeKept(a, a');
    TlsfKept(a, a');
    BumpsKept(a, a');
  }

  lemma HugeIsLive(a: Api, q: nat)
    requires HugeOk(a) && q in a.huge
    ensures q in a.live && a.live[q] == HugeBlock(a.huge[q])
    ensures q > PAGE_SIZE && a.huge[q] >= 2 * PAGE_SIZE && Apart(q - PAGE_SIZE, a.huge[q], a.base, ARENA_SIZE)
  {
  }

  /** A pointer to a slot or a bump block is gone. */
  lemma RemovedPointer(a: Api, a': Api, p: nat)
    requires HugeOk(a) && TlsfOk(a) && BumpsApart(a) && a'.base == a.base && a'.tlsf == a.tlsf && a'.huge == a.huge
    requires p in a.live && (a.live[p].SlabSlot? || a.live[p].BumpBlock?) && a'.live == a.live - {p}
    ensures HugeOk(a') && TlsfOk(a') && BumpsApart(a')
  {
    hide WellFormed, Live, HugeOk, TlsfOk, BumpsApart;
    forall q | q in a.huge ensures q in a'.live && a'.live[q] == a.live[q] { HugeIsLive(a, q); }
    HugeKept(a, a');
    TlsfKept(a, a');
    BumpsKept(a, a');
  }

  // ---------------------------------------------------------------------------------------------
  // Slab steps

  /** A page the arena has not handed out belongs to no slab. */
  lemma NextPageUnowned(a: Api, t: nat)
    requires RecordsOk(a) && SlabsOk(a) && t < |a.slabs|
    ensures a.nextFreePage !in a.slabs[t].pages && S.WellFormed(a.slabs[t])
    ensures |a.slabs[t].partials| == NUM_SIZE_CLASSES
  {
    if a.nextFreePage in a.slabs[t].pages { OwnedRecord(a, t, a.nextFreePage); }
  }

  /** No live pointer lies on a page the arena has not handed out. */
  lemma NewPagesAreEmpty(a: Api, ptr: nat, p: nat)
    requires Inv(a) && a.nextFreePage <= p && InArena(a.base, ptr) && PtrToPageIndex(a.base, ptr) == p
    ensures ptr !in a.live
  {
    if ptr in a.live {
      LivePage(a, ptr);
    }
  }

  /** A free slot has an address that is not live, and is not on its owner's stack. */
  lemma FreeSlotNotLive(a: Api, t: nat, p: nat, i: nat)
    requires Inv(a) && t < |a.slabs| && S.IsFreeSlot(a.slabs[t], p, i)
    ensures FIRST_FREE_PAGE <= p < PAGES_PER_ARENA && a.slabs[t].pages[p].class_ < NUM_SIZE_CLASSES
    ensures i < SlotsPerPage(a.slabs[t].pages[p].class_)
    ensures SlotAddr(a.base, p, a.slabs[t].pages[p].class_, i) !in a.live && t < |a.stacks| && S.Slot(p, i) !in a.stacks[t]
  {
    hide WellFormed, SlotsPerPage, ClassToSize, SlotAddr, PtrToPageIndex, TlsfContains, S.WellFormed, Live;
    hide HugeOk, TlsfOk, BumpsApart, SlotsKept;
    OwnedRecord(a, t, p);
    var c := a.slabs[t].pages[p].class_;
    SlotRoundTrip(a.base, p, c, i);
    if SlotAddr(a.base, p, c, i) in a.live {
      LivePage(a, SlotAddr(a.base, p, c, i));
    }
    if S.Slot(p, i) in a.stacks[t] {
      StackedInUse(a, t, S.Slot(p, i));
    }
  }

  lemma StackedInUse(a: Api, t: nat, x: S.Slot)
    requires StacksOk(a) && t < |a.stacks| && x in a.stacks[t]
    ensures InUse(a, t, x.page, x.idx)
  {
  }

  /** Thread t's slab replaced by one with the same pages: records and slabs stay right. */
  lemma SlabSwapKeeps(a: Api, t: nat, r: S.Slab, a': Api)
    requires RecordsOk(a) && SlabsOk(a) && t < |a.slabs| && S.WellFormed(r) && S.SamePages(a.slabs[t], r)
    requires a' == a.(slabs := a.slabs[t := r], live := a'.live, stacks := a'.stacks)
    ensures RecordsOk(a') && SlabsOk(a')
  {
    hide S.WellFormed, WellFormed, Live;
    forall u, p | 0 <= u < |a'.slabs| && p in a'.slabs[u].pages ensures PageOwned(a', u, p) {
      assert PageOwned(a, u, p);
    }
  }

  /** A slot in use stays in use exactly when the swap does not free it. */
  lemma UseAfter(a: Api, t: nat, r: S.Slab, a': Api, u: nat, p: nat, i: nat)
    requires t < |a.slabs| && S.SamePages(a.slabs[t], r) && a'.slabs == a.slabs[t := r]
    ensures u != t ==> (InUse(a', u, p, i) <==> InUse(a, u, p, i))
    ensures u == t && InUse(a, u, p, i) ==> (InUse(a', u, p, i) <==> !S.IsFreeSlot(r, p, i))
    ensures u == t && InUse(a', u, p, i) && !S.IsFreeSlot(a.slabs[t], p, i) ==> InUse(a, u, p, i)
    ensures InUse(a', u, p, i) ==> p in a.slabs[u].pages && a'.slabs[u].pages[p].class_ == a.slabs[u].pages[p].class_
  {
    hide SlotsPerPage;
  }

  lemma UsedIsNotFree(a: Api, t: nat, p: nat, i: nat)
    requires InUse(a, t, p, i)
    ensures !S.IsFreeSlot(a.slabs[t], p, i)
  {
    hide SlotsPerPage;
  }

  /** The origin of a live pointer stays right when the swap frees no live slot. */
  lemma OriginStill(a: Api, t: nat, r: S.Slab, a': Api, ptr: nat, o: Origin)
    requires OriginOk(a, ptr, o) && t < |a.slabs| && S.SamePages(a.slabs[t], r)
    requires a' == a.(slabs := a.slabs[t := r], live := a'.live, stacks := a'.stacks)
    requires o.SlabSlot? ==> o.owner < |a'.stacks| && S.Slot(o.page, o.idx) !in a'.stacks[o.owner]
    requires o.SlabSlot? && o.owner == t ==> !S.IsFreeSlot(r, o.page, o.idx)
    ensures OriginOk(a', ptr, o)
  {
    hide SlotsPerPage, ClassToSize, SlotAddr, Live, S.SamePages, InUse, S.IsFreeSlot;
    if o.SlabSlot? { UseAfter(a, t, r, a', o.owner, o.page, o.idx); SlotOrigin(a, ptr, o); }
  }

  lemma SlotOrigin(a: Api, ptr: nat, o: Origin)
    requires OriginOk(a, ptr, o) && o.SlabSlot?
    ensures InUse(a, o.owner, o.page, o.idx) && o.owner < |a.stacks| && S.Slot(o.page, o.idx) !in a.stacks[o.owner]
    ensures o.page in a.slabs[o.owner].pages && a.slabs[o.owner].pages[o.page].class_ == o.class_ < NUM_SIZE_CLASSES
    ensures ptr == SlotAddr(a.base, o.page, o.class_, o.idx)
  {
    hide SlotsPerPage;
  }

  lemma PointerStill(a: Api, t: nat, r: S.Slab, a': Api, u: nat, p: nat, i: nat)
    requires t < |a.slabs| && S.SamePages(a.slabs[t], r) && a'.slabs == a.slabs[t := r] && a'.base == a.base
    requires InUse(a, u, p, i) && InUse(a', u, p, i) && HasPointer(a, u, p, i)
    requires var ptr := SlotAddr(a.base, p, a.slabs[u].pages[p].class_, i);
      ptr in a'.live && a'.live[ptr] == a.live[ptr]
    ensures HasPointer(a', u, p, i)
  {
    hide SlotsPerPage, ClassToSize, SlotAddr;
  }

  /** Taking a slot: it was not live, and everything else is as it was. */
  lemma TakeKeeps(a: Api, t: nat, class_: nat)
    requires Inv(a) && t < |a.slabs| && class_ < NUM_SIZE_CLASSES && S.HasPartial(a.slabs[t], class_)
    ensures var (a', ptr) := TakeSlot(a, t, class_);
      && Inv(a') && ptr > 0 && ptr !in a.live && ptr in a'.live && a'.live == a.live[ptr := a'.live[ptr]]
      && a'.live[ptr].SlabSlot? && a'.live[ptr].owner == t && a'.live[ptr].class_ == class_
  {
    hide WellFormed, Live, SlotsPerPage, ClassToSize, SlotAddr, S.WellFormed, S.Pop, S.HasPartial, S.SamePages;
    hide RecordsOk, HugeOk, TlsfOk, BumpsApart, InUse, S.IsFreeSlot, BumpOk, TlsfPtr, LiveOk, SlotsKept;
    StepReady(a);
    var (p, i, r) := S.Pop(a.slabs[t], class_);
    var (a', ptr) := TakeSlot(a, t, class_);
    assert S.WellFormed(a.slabs[t]);
    S.PopKeepsWellFormed(a.slabs[t], class_);
    S.PopSamePages(a.slabs[t], class_);
    FreeSlotNotLive(a, t, p, i);
    AddressPositive(a.base, p, class_, i);
    SlabSwapKeeps(a, t, r, a');
    AddedSlot(a, a', ptr);
    TakenStacks(a, t, r, a');
    assert LiveOk(a') by { TakenOrigins(a, t, class_, p, i, r, a', ptr); }
    assert SlotsKept(a') by { TakenKept(a, t, class_, p, i, r, a', ptr); }
  }

  lemma AddressPositive(base: nat, p: nat, class_: nat, i: nat)
    requires base > 0 && class_ < NUM_SIZE_CLASSES
    ensures SlotAddr(base, p, class_, i) > 0
  {
  }

  /** Taking slots leaves the stacks in use. */
  lemma TakenStacks(a: Api, t: nat, r: S.Slab, a': Api)
    requires StacksOk(a) && t < |a.slabs| && S.SamePages(a.slabs[t], r)
    requires a'.slabs == a.slabs[t := r] && a'.stacks == a.stacks
    requires forall q, j :: S.IsFreeSlot(r, q, j) ==> S.IsFreeSlot(a.slabs[t], q, j)
    ensures StacksOk(a')
  {
    hide InUse, S.SamePages, S.IsFreeSlot;
    forall u, x | 0 <= u < |a'.stacks| && x in a'.stacks[u] ensures InUse(a', u, x.page, x.idx) {
      StackedInUse(a, u, x);
      UsedIsNotFree(a, u, x.page, x.idx);
      UseAfter(a, t, r, a', u, x.page, x.idx);
    }
  }

  lemma TakenOrigins(a: Api, t: nat, class_: nat, p: nat, i: nat, r: S.Slab, a': Api, ptr: nat)
    requires Inv(a) && t < |a.slabs| && class_ < NUM_SIZE_CLASSES && S.SamePages(a.slabs[t], r)
    requires S.IsFreeSlot(a.slabs[t], p, i) && S.IsUsedSlot(r, p, i) && a.slabs[t].pages[p].class_ == class_
    requires t < |a.stacks| && S.Slot(p, i) !in a.stacks[t] && ptr == SlotAddr(a.base, p, class_, i)
    requires forall q, j :: S.IsFreeSlot(r, q, j) <==> S.IsFreeSlot(a.slabs[t], q, j) && !(q == p && j == i)
    requires a' == a.(slabs := a.slabs[t := r], live := a.live[ptr := SlabSlot(t, p, class_, i)])
    ensures LiveOk(a')
  {
    hide WellFormed, Live, SlotsPerPage, ClassToSize, SlotAddr, S.WellFormed, S.IsFreeSlot;
    hide RecordsOk, SlabsOk, StacksOk, HugeOk, TlsfOk, BumpsApart, SlotsKept, BumpOk, TlsfPtr;
    forall q | q in a'.live ensures OriginOk(a', q, a'.live[q]) {
      if q != ptr {
        assert OriginOk(a, q, a.live[q]);
        if a.live[q].SlabSlot? {
          SlotOrigin(a, q, a.live[q]);
          UsedIsNotFree(a, a.live[q].owner, a.live[q].page, a.live[q].idx);
        }
        OriginStill(a, t, r, a', q, a.live[q]);
      }
    }
  }

  lemma TakenKept(a: Api, t: nat, class_: nat, p: nat, i: nat, r: S.Slab, a': Api, ptr: nat)
    requires SlotsKept(a) && t < |a.slabs| && class_ < NUM_SIZE_CLASSES && S.SamePages(a.slabs[t], r)
    requires p in a.slabs[t].pages && a.slabs[t].pages[p].class_ == class_
    requires ptr !in a.live && ptr == SlotAddr(a.base, p, class_, i)
    requires forall q, j :: S.IsFreeSlot(r, q, j) <==> S.IsFreeSlot(a.slabs[t], q, j) && !(q == p && j == i)
    requires a' == a.(slabs := a.slabs[t := r], live := a.live[ptr := SlabSlot(t, p, class_, i)])
    ensures SlotsKept(a')
  {
    hide SlotsPerPage, ClassToSize, SlotAddr, S.SamePages, S.IsFreeSlot, InUse, HasPointer;
    forall u: nat, q: nat, j: nat | InUse(a', u, q, j) && u < |a'.stacks|
      ensures S.Slot(q, j) in a'.stacks[u] || HasPointer(a', u, q, j)
    {
      UseAfter(a, t, r, a', u, q, j);
      UsedIsNotFree(a', u, q, j);
      if u == t && q == p && j == i {
        NewPointer(a', t, p, i, class_, ptr);
      } else {
        StillKept(a, t, r, a', u, q, j, ptr);
      }
    }
  }

  lemma NewPointer(a: Api, t: nat, p: nat, i: nat, class_: nat, ptr: nat)
    requires InUse(a, t, p, i) && a.slabs[t].pages[p].class_ == class_ && ptr == SlotAddr(a.base, p, class_, i)
    requires ptr in a.live && a.live[ptr] == SlabSlot(t, p, class_, i)
    ensures HasPointer(a, t, p, i)
  {
  }

  lemma StillKept(a: Api, t: nat, r: S.Slab, a': Api, u: nat, q: nat, j: nat, ptr: nat)
    requires SlotsKept(a) && t < |a.slabs| && S.SamePages(a.slabs[t], r) && a'.slabs == a.slabs[t := r]
    requires a'.stacks == a.stacks && a'.base == a.base && ptr !in a.live
    requires forall x :: x in a.live && x != ptr ==> x in a'.live && a'.live[x] == a.live[x]
    requires InUse(a, u, q, j) && InUse(a', u, q, j) && u < |a.stacks|
    ensures S.Slot(q, j) in a'.stacks[u] || HasPointer(a', u, q, j)
  {
    hide SlotsPerPage, ClassToSize, SlotAddr, S.SamePages;
    if HasPointer(a, u, q, j) { PointerStill(a, t, r, a', u, q, j); }
  }

  /** A new page joins a slab: nothing else changes. */
  lemma GrowKeeps(a: Api, t: nat, class_: nat)
    requires Inv(a) && t < |a.slabs| && class_ < NUM_SIZE_CLASSES && a.nextFreePage < PAGES_PER_ARENA
    requires !S.HasPartial(a.slabs[t], class_)
    ensures class_ < |a.slabs[t].partials| && |a.records| == PAGES_PER_ARENA
    ensures Inv(GrowSlab(a, t, class_)) && GrowSlab(a, t, class_).live == a.live
    ensures t < |GrowSlab(a, t, class_).slabs| && S.HasPartial(GrowSlab(a, t, class_).slabs[t], class_)
  {
    hide WellFormed, Live, SlotsPerPage, ClassToSize, SlotAddr, S.WellFormed, S.HasPartial, HugeOk, TlsfOk, BumpsApart;
    hide LiveOk, SlotsKept, StacksOk, InUse;
    StepReady(a);
    var p := a.nextFreePage;
    NextPageUnowned(a, t);
    S.NoPartialMeansEmpty(a.slabs[t], class_);
    S.AddPageKeepsWellFormed(a.slabs[t], p, class_);
    var a', r := GrowSlab(a, t, class_), S.AddPage(a.slabs[t], p, class_);
    hide S.AddPage;
    forall q ensures q in r.pages <==> q in a.slabs[t].pages || q == p {
      assert q in r.pages <==> q in r.pages.Keys;
    }
    forall u, q | 0 <= u < |a'.slabs| && q in a'.slabs[u].pages ensures PageOwned(a', u, q) {
      NextPageUnowned(a, u);
      if q != p { assert PageOwned(a, u, q); }
    }
    AddedSlot(a, a', 0);
    assert StacksOk(a') by { GrownStacks(a, t, r, a'); }
    assert LiveOk(a') by { GrownOrigins(a, t, class_, r, a'); }
    assert SlotsKept(a') by { GrownKept(a, t, class_, r, a'); }
  }

  /** A slot of the grown slabs in use was in use, and not on the new page. */
  lemma GrownUse(a: Api, t: nat, r: S.Slab, a': Api, u: nat, p: nat, i: nat)
    requires RecordsOk(a) && SlabsOk(a) && t < |a.slabs| && a'.slabs == a.slabs[t := r] && InUse(a, u, p, i)
    requires forall q :: q in a.slabs[t].pages ==> q in r.pages && r.pages[q] == a.slabs[t].pages[q]
    ensures InUse(a', u, p, i) && a'.slabs[u].pages[p] == a.slabs[u].pages[p]
    ensures p != a.nextFreePage
  {
    hide SlotsPerPage, S.WellFormed;
    NextPageUnowned(a, u);
  }

  lemma GrownStacks(a: Api, t: nat, r: S.Slab, a': Api)
    requires StacksOk(a) && RecordsOk(a) && SlabsOk(a) && t < |a.slabs| && a'.slabs == a.slabs[t := r]
    requires forall q :: q in a.slabs[t].pages ==> q in r.pages && r.pages[q] == a.slabs[t].pages[q]
    requires a'.stacks == a.stacks
    ensures StacksOk(a')
  {
    hide InUse, RecordsOk, SlabsOk;
    forall u, x | 0 <= u < |a'.stacks| && x in a'.stacks[u] ensures InUse(a', u, x.page, x.idx) {
      StackedInUse(a, u, x);
      GrownUse(a, t, r, a', u, x.page, x.idx);
    }
  }

  lemma GrownOrigins(a: Api, t: nat, class_: nat, r: S.Slab, a': Api)
    requires Inv(a) && t < |a.slabs| && class_ < NUM_SIZE_CLASSES && a.nextFreePage < PAGES_PER_ARENA
    requires class_ < |a.slabs[t].partials| && |a.records| == PAGES_PER_ARENA
    requires a' == GrowSlab(a, t, class_) && r == a'.slabs[t]
    requires forall q :: q in a.slabs[t].pages ==> q in r.pages && r.pages[q] == a.slabs[t].pages[q]
    ensures LiveOk(a')
  {
    hide WellFormed, Live, SlotsPerPage, ClassToSize, SlotAddr, S.WellFormed, S.AddPage, PageAddr;
    hide RecordsOk, SlabsOk, StacksOk, HugeOk, TlsfOk, BumpsApart, SlotsKept, InUse;
    forall q | q in a'.live ensures OriginOk(a', q, a'.live[q]) {
      assert OriginOk(a, q, a.live[q]);
      if a.live[q].SlabSlot? { GrownUse(a, t, r, a', a.live[q].owner, a.live[q].page, a.live[q].idx); }
    }
  }

  lemma GrownKept(a: Api, t: nat, class_: nat, r: S.Slab, a': Api)
    requires Inv(a) && t < |a.slabs| && class_ < NUM_SIZE_CLASSES && a.nextFreePage < PAGES_PER_ARENA
    requires class_ < |a.slabs[t].partials| && |a.records| == PAGES_PER_ARENA
    requires a' == GrowSlab(a, t, class_) && r == a'.slabs[t]
    requires forall q :: q in r.pages <==> q in a.slabs[t].pages || q == a.nextFreePage
    requires forall q :: q in a.slabs[t].pages ==> r.pages[q] == a.slabs[t].pages[q]
    requires a.nextFreePage in r.pages && r.pages[a.nextFreePage].class_ == class_
    requires forall i :: i in r.pages[a.nextFreePage].free <==> 0 <= i < SlotsPerPage(class_)
    ensures SlotsKept(a')
  {
    hide WellFormed, Live, SlotsPerPage, ClassToSize, SlotAddr, S.WellFormed, S.AddPage, PageAddr;
    hide RecordsOk, SlabsOk, StacksOk, HugeOk, TlsfOk, BumpsApart, LiveOk;
    forall u: nat, q: nat, j: nat | InUse(a', u, q, j) && u < |a'.stacks|
      ensures S.Slot(q, j) in a'.stacks[u] || HasPointer(a', u, q, j)
    {
      NextPageUnowned(a, u);
      assert InUse(a, u, q, j);
      GrownUse(a, t, r, a', u, q, j);
    }
  }

  /** A slab answers with a slot of the class that was not live, or with null when the arena is full and
      no page of the class has a free slot. */
  lemma SlabMallocKeeps(a: Api, t: nat, class_: nat)
    requires Inv(a) && t < |a.slabs| && class_ < NUM_SIZE_CLASSES && |a.records| == PAGES_PER_ARENA
    ensures var (a', ptr) := SlabMalloc(a, t, class_);
      && Inv(a') && (ptr == 0 <==> !S.HasPartial(a.slabs[t], class_) && a.nextFreePage >= PAGES_PER_ARENA)
      && (if ptr == 0 then a' == a
          else
            && ptr !in a.live && ptr in a'.live && a'.live == a.live[ptr := a'.live[ptr]]
            && a'.live[ptr].SlabSlot? && a'.live[ptr].owner == t && a'.live[ptr].class_ == class_)
  {
    hide Inv, TakeSlot, GrowSlab, S.HasPartial;
    if S.HasPartial(a.slabs[t], class_) {
      TakeKeeps(a, t, class_);
    } else if a.nextFreePage < PAGES_PER_ARENA {
      GrowKeeps(a, t, class_);
      TakeKeeps(GrowSlab(a, t, class_), t, class_);
    }
  }

  /** Draining gives the stacked slots back to the slab and touches no live pointer. */
  lemma DrainKeeps(a: Api, t: nat)
    requires Inv(a) && t < |a.slabs|
    ensures t < |a.stacks| && Inv(Drained(a, t)) && Drained(a, t).live == a.live
    ensures forall p, i :: S.IsFreeSlot(Drained(a, t).slabs[t], p, i) <==>
              S.IsFreeSlot(a.slabs[t], p, i) || S.Slot(p, i) in a.stacks[t]
  {
    hide WellFormed, Live, SlotsPerPage, ClassToSize, SlotAddr, S.WellFormed, S.FreeInOrder, S.SamePages, S.IsFreeSlot;
    hide HugeOk, TlsfOk, BumpsApart, LiveOk, SlotsKept, InUse, RecordsOk;
    StepReady(a);
    var r, a' := S.FreeInOrder(a.slabs[t], a.stacks[t]), Drained(a, t);
    assert S.WellFormed(a.slabs[t]);
    StackAllUsed(a, t);
    S.FreeInOrderFrees(a.slabs[t], a.stacks[t]);
    SlabSwapKeeps(a, t, r, a');
    AddedSlot(a, a', 0);
    assert StacksOk(a') by {
      forall u, x | 0 <= u < |a'.stacks| && x in a'.stacks[u] ensures InUse(a', u, x.page, x.idx) {
        StackedInUse(a, u, x);
        UseAfter(a, t, r, a', u, x.page, x.idx);
      }
    }
    assert LiveOk(a') by { DrainedOrigins(a, t, r, a'); }
    assert SlotsKept(a') by { DrainedKept(a, t, r, a'); }
  }

  lemma StackAllUsed(a: Api, t: nat)
    requires StacksOk(a) && t < |a.stacks|
    ensures S.AllUsed(a.slabs[t], a.stacks[t]) && S.DistinctSlots(a.stacks[t])
  {
    hide SlotsPerPage;
    forall n | n in a.stacks[t] ensures S.IsUsedSlot(a.slabs[t], n.page, n.idx) { StackedInUse(a, t, n); }
  }

  lemma DrainedOrigins(a: Api, t: nat, r: S.Slab, a': Api)
    requires LiveOk(a) && t < |a.slabs| && t < |a.stacks| && S.SamePages(a.slabs[t], r)
    requires a' == a.(slabs := a.slabs[t := r], stacks := a.stacks[t := []])
    requires forall q, j :: S.IsFreeSlot(r, q, j) <==> S.IsFreeSlot(a.slabs[t], q, j) || S.Slot(q, j) in a.stacks[t]
    ensures LiveOk(a')
  {
    hide Live, SlotsPerPage, ClassToSize, SlotAddr, S.IsFreeSlot, S.SamePages, InUse, BumpOk, TlsfPtr;
    forall q | q in a'.live ensures OriginOk(a', q, a'.live[q]) {
      assert OriginOk(a, q, a.live[q]);
      if a.live[q].SlabSlot? {
        SlotOrigin(a, q, a.live[q]);
        UsedIsNotFree(a, a.live[q].owner, a.live[q].page, a.live[q].idx);
      }
      OriginStill(a, t, r, a', q, a.live[q]);
    }
  }

  lemma DrainedKept(a: Api, t: nat, r: S.Slab, a': Api)
    requires SlotsKept(a) && t < |a.slabs| && t < |a.stacks| && S.SamePages(a.slabs[t], r)
    requires a' == a.(slabs := a.slabs[t := r], stacks := a.stacks[t := []])
    requires forall q, j :: S.IsFreeSlot(r, q, j) <==> S.IsFreeSlot(a.slabs[t], q, j) || S.Slot(q, j) in a.stacks[t]
    ensures SlotsKept(a')
  {
    hide SlotsPerPage, ClassToSize, SlotAddr, S.SamePages, S.IsFreeSlot, InUse, HasPointer;
    forall u: nat, q: nat, j: nat | InUse(a', u, q, j) && u < |a'.stacks|
      ensures S.Slot(q, j) in a'.stacks[u] || HasPointer(a', u, q, j)
    {
      UseAfter(a, t, r, a', u, q, j);
      UsedIsNotFree(a', u, q, j);
      assert InUse(a, u, q, j);
      if HasPointer(a, u, q, j) { PointerSwapped(a, t, r, a', u, q, j); }
    }
  }

  lemma PointerSwapped(a: Api, t: nat, r: S.Slab, a': Api, u: nat, q: nat, j: nat)
    requires t < |a.slabs| && S.SamePages(a.slabs[t], r) && a'.slabs == a.slabs[t := r]
    requires a'.base == a.base && a'.live == a.live
    requires InUse(a, u, q, j) && InUse(a', u, q, j) && HasPointer(a, u, q, j)
    ensures HasPointer(a', u, q, j)
  {
    hide SlotsPerPage, ClassToSize, SlotAddr, S.SamePages;
    PointerStill(a, t, r, a', u, q, j);
  }

  // ---------------------------------------------------------------------------------------------
  // Large and huge requests

  /** Calls that leave slabs and stacks alone. */
  lemma SlabsStill(a: Api, a': Api)
    requires RecordsOk(a) && SlabsOk(a) && StacksOk(a)
    requires a' == a.(tlsf := a'.tlsf, huge := a'.huge, live := a'.live)
    ensures RecordsOk(a') && SlabsOk(a') && StacksOk(a')
  {
    hide S.WellFormed, S.IsUsedSlot, S.DistinctSlots;
    forall u, q | 0 <= u < |a'.slabs| && q in a'.slabs[u].pages ensures PageOwned(a', u, q) {
      assert PageOwned(a, u, q);
    }
    forall u, x | 0 <= u < |a'.stacks| && x in a'.stacks[u] ensures InUse(a', u, x.page, x.idx) {
      StackedInUse(a, u, x);
    }
  }

  /** They keep the slots' pointers when they take away no pointer to a slot. */
  lemma KeptStill(a: Api, a': Api)
    requires SlotsKept(a) && a'.slabs == a.slabs && a'.stacks == a.stacks && a'.base == a.base
    requires forall q :: q in a.live && a.live[q].SlabSlot? ==> q in a'.live && a'.live[q] == a.live[q]
    ensures SlotsKept(a')
  {
    hide S.IsUsedSlot, ClassToSize, SlotAddr;
    forall u: nat, q: nat, j: nat | InUse(a', u, q, j) && u < |a'.stacks|
      ensures S.Slot(q, j) in a'.stacks[u] || HasPointer(a', u, q, j)
    {
      assert InUse(a, u, q, j);
      if HasPointer(a, u, q, j) { SamePointer(a, a', u, q, j); }
    }
  }

  lemma SamePointer(a: Api, a': Api, u: nat, q: nat, j: nat)
    requires InUse(a, u, q, j) && HasPointer(a, u, q, j) && a'.slabs == a.slabs && a'.base == a.base
    requires forall x :: x in a.live && a.live[x].SlabSlot? ==> x in a'.live && a'.live[x] == a.live[x]
    ensures InUse(a', u, q, j) && HasPointer(a', u, q, j)
  {
    hide ClassToSize, SlotAddr, SlotsPerPage;
  }

  /** A live pointer keeps its origin when a call touches no slab and not its own block. */
  lemma OriginSame(a: Api, a': Api, q: nat, o: Origin)
    requires OriginOk(a, q, o)
    requires a' == a.(tlsf := a'.tlsf, huge := a'.huge, live := a'.live)
    requires o.TlsfBlock? ==> o.block in Live(a'.tlsf.blocks)
    requires o.HugeBlock? ==> (q in a.huge ==> q in a'.huge && a'.huge[q] == a.huge[q])
    ensures OriginOk(a', q, o)
  {
    hide SlotsPerPage, ClassToSize, SlotAddr, PageAddr, Live;
  }

  lemma PoolPtrPage(a: Api, b: nat)
    requires b + 1 < POOL_UNITS
    ensures InArena(a.base, TlsfPtr(a, b)) && 0 < PtrToPageIndex(a.base, TlsfPtr(a, b)) < FIRST_FREE_PAGE
  {
    var off := META_PAGES * PAGE_SIZE + 16 * (b + 1);
    assert TlsfPtr(a, b) == a.base + off && META_PAGES * PAGE_SIZE <= off < FIRST_FREE_PAGE * PAGE_SIZE;
  }

  /** A block of the pool that is not live yet has an address that is not live yet. */
  lemma PoolPtrFresh(a: Api, b: nat)
    requires Inv(a) && b !in Live(a.tlsf.blocks) && b + 1 < POOL_UNITS
    ensures TlsfPtr(a, b) !in a.live
  {
    hide WellFormed, Live, RecordsOk, SlabsOk, StacksOk, HugeOk, TlsfOk, BumpsApart, SlotsKept, PtrToPageIndex, InArena;
    PoolPtrPage(a, b);
    if TlsfPtr(a, b) in a.live {
      LivePage(a, TlsfPtr(a, b));
    }
  }

  /** The pointer `alloc` returns is inside the pool and was not live. */
  lemma TlsfStepFresh(a: Api, size: nat, b: nat, h: Heap)
    requires Inv(a) && size + ALIGN <= USIZE_MAX && AbstractHeap.Alloc(a.tlsf, size) == (Some((b + 1) as nat), h)
    ensures TlsfPtr(a, b) !in a.live && WellFormed(h) && h.end == a.tlsf.end
    ensures b in h.blocks && b !in Live(a.tlsf.blocks) && Live(h.blocks) == Live(a.tlsf.blocks)[b := h.blocks[b].n]
  {
    hide WellFormed, AbstractHeap.Alloc, RecordsOk, OriginOk, SlabsOk, StacksOk, HugeOk, LiveOk, BumpsApart, SlotsKept;
    AllocKeepsWellFormed(a.tlsf, size);
    AllocAddsOneLive(a.tlsf, size);
    LiveEntry(h.blocks, b);
    hide Live;
    LivePayloadsDisjoint(h, b, b);
    PoolPtrFresh(a, b);
  }

  /** alloc from the pool. */
  lemma TlsfMallocKeeps(a: Api, size: nat, b: nat, h: Heap, a': Api)
    requires Inv(a) && size + ALIGN <= USIZE_MAX && AbstractHeap.Alloc(a.tlsf, size) == (Some((b + 1) as nat), h)
    requires a' == a.(tlsf := h, live := a.live[TlsfPtr(a, b) := TlsfBlock(b)])
    ensures Inv(a') && TlsfPtr(a, b) !in a.live && TlsfPtr(a, b) > 0
    ensures b in h.blocks && b !in Live(a.tlsf.blocks) && Live(h.blocks) == Live(a.tlsf.blocks)[b := h.blocks[b].n]
  {
    hide WellFormed, AbstractHeap.Alloc, Live, S.WellFormed, TlsfPtr, OriginOk;
    hide RecordsOk, SlabsOk, StacksOk, HugeOk, BumpsApart, SlotsKept;
    TlsfStepFresh(a, size, b, h);
    LiveMore(a.tlsf.blocks, h.blocks, b);
    PtrPositive(a, b);
    SlabsStill(a, a');
    KeptStill(a, a');
    forall q | q in a.huge ensures q in a.live { HugeIsLive(a, q); }
    HugeKept(a, a');
    BumpsKept(a, a');
    forall q | q in a'.live ensures OriginOk(a', q, a'.live[q]) {
      if q == TlsfPtr(a, b) { TlsfOrigin(a, a', b); } else { LiveBlock(a, q); OriginSame(a, a', q, a.live[q]); }
    }
    assert TlsfOk(a') by { NewTlsfOk(a, a', b); }
  }

  lemma PtrPositive(a: Api, b: nat)
    ensures TlsfPtr(a, b) > 0
  {
  }

  lemma TlsfOrigin(a: Api, a': Api, b: nat)
    requires a'.base == a.base && b in Live(a'.tlsf.blocks)
    ensures OriginOk(a', TlsfPtr(a, b), TlsfBlock(b))
  {
    hide Live;
  }

  lemma LiveBlock(a: Api, q: nat)
    requires LiveOk(a) && q in a.live
    ensures OriginOk(a, q, a.live[q]) && (a.live[q].TlsfBlock? ==>
              a.live[q].block in Live(a.tlsf.blocks) && q == TlsfPtr(a, a.live[q].block))
  {
    hide Live;
    assert OriginOk(a, q, a.live[q]);
  }

  lemma NewTlsfOk(a: Api, a': Api, b: nat)
    requires TlsfOk(a) && WellFormed(a'.tlsf) && a'.tlsf.end == a.tlsf.end && a'.base == a.base
    requires forall c :: c in Live(a'.tlsf.blocks) <==> c in Live(a.tlsf.blocks) || c == b
    requires a'.live == a.live[TlsfPtr(a, b) := TlsfBlock(b)]
    ensures TlsfOk(a')
  {
    hide WellFormed, Live;
    forall c | c in Live(a'.tlsf.blocks) ensures TlsfPtr(a', c) in a'.live && a'.live[TlsfPtr(a', c)] == TlsfBlock(c) {
      assert c != b ==> TlsfPtr(a, c) in a.live;
    }
  }

  lemma LiveMore(blocks: Blocks, blocks': Blocks, b: nat)
    requires b in blocks' && Live(blocks') == Live(blocks)[b := blocks'[b].n]
    ensures forall c :: c in Live(blocks') <==> c in Live(blocks) || c == b
  {
  }

  /** The pages a bump allocation takes, in plain numbers: just enough. */
  lemma BumpPages(size: nat)
    ensures size <= PagesFor(size) * PAGE_SIZE < size + PAGE_SIZE
  {
    DivBounds(size + PAGE_SIZE - 1, PAGE_SIZE, PagesFor(size));
  }

  lemma BumpedAt(records: seq<PageRecord>, lo: nat, hi: nat)
    requires lo <= hi <= |records|
    ensures |BumpedRecords(records, lo, hi)| == |records|
    ensures forall q :: lo <= q < hi ==> BumpedRecords(records, lo, hi)[q].sizeClass == NO_CLASS
    ensures forall q :: 0 <= q < |records| && !(lo <= q < hi) ==> BumpedRecords(records, lo, hi)[q] == records[q]
  {
  }

  lemma NewPage(base: nat, p: nat)
    requires META_PAGES <= p < PAGES_PER_ARENA
    ensures InArena(base, PageAddr(base, p)) && PtrToPageIndex(base, PageAddr(base, p)) == p
  {
  }

  /** Records of pages that belong to a slab do not change. */
  lemma BumpKeepsSlabs(a: Api, end: nat, a': Api)
    requires RecordsOk(a) && SlabsOk(a) && StacksOk(a) && a.nextFreePage <= end <= PAGES_PER_ARENA
    requires a' == a.(records := BumpedRecords(a.records, a.nextFreePage, end), nextFreePage := end, live := a'.live)
    ensures RecordsOk(a') && SlabsOk(a') && StacksOk(a')
  {
    hide S.WellFormed, S.IsUsedSlot, S.DistinctSlots, BumpedRecords;
    BumpedAt(a.records, a.nextFreePage, end);
    forall u, q | 0 <= u < |a'.slabs| && q in a'.slabs[u].pages ensures PageOwned(a', u, q) {
      OwnedRecord(a, u, q);
    }
    forall u, x | 0 <= u < |a'.stacks| && x in a'.stacks[u] ensures InUse(a', u, x.page, x.idx) {
      StackedInUse(a, u, x);
    }
  }

  /** A bump allocation changes the records of pages that nobody has. */
  lemma OriginBumped(a: Api, end: nat, a': Api, q: nat)
    requires Inv(a) && q in a.live && a.nextFreePage <= end <= PAGES_PER_ARENA
    requires a' == a.(records := BumpedRecords(a.records, a.nextFreePage, end), nextFreePage := end, live := a'.live)
    ensures OriginOk(a', q, a.live[q])
  {
    hide WellFormed, Live, S.IsUsedSlot, ClassToSize, SlotAddr, PageAddr, SlabsOk, StacksOk, HugeOk, TlsfOk, BumpsApart;
    hide SlotsKept, BumpedRecords;
    StepReady(a);
    BumpedAt(a.records, a.nextFreePage, end);
    assert OriginOk(a, q, a.live[q]);
  }

  /** A new bump block lies beyond every older one. */
  lemma NewBumpApart(a: Api, size: nat, q: nat)
    requires LiveOk(a) && q in a.live && a.live[q].BumpBlock?
    ensures Apart(q, a.live[q].size, PageAddr(a.base, a.nextFreePage), size)
  {
    assert OriginOk(a, q, a.live[q]);
  }

  /** arena.alloc fails exactly when the request does not fit into the pages that are left. */
  lemma BumpMallocKeeps(a: Api, size: nat)
    requires Inv(a) && size > 0
    ensures var (a', ptr) := BumpMalloc(a, size);
      && Inv(a') && (ptr == 0 <==> a.nextFreePage * PAGE_SIZE + size > PAGES_PER_ARENA * PAGE_SIZE)
      && (if ptr == 0 then a' == a
          else
            && ptr !in a.live && a'.live == a.live[ptr := BumpBlock(a.nextFreePage, size)]
            && ptr == PageAddr(a.base, a.nextFreePage))
  {
    hide WellFormed, Live, RecordsOk, SlabsOk, StacksOk, TlsfOk, HugeOk, BumpsApart, SlotsKept, PagesFor, BumpedRecords;
    hide PageAddr, LiveOk;
    StepReady(a);
    BumpPages(size);
    var (a', ptr) := BumpMalloc(a, size);
    var end := a.nextFreePage + PagesFor(size);
    if end <= PAGES_PER_ARENA {
      NewPage(a.base, a.nextFreePage);
      NewPagesAreEmpty(a, ptr, a.nextFreePage);
      BumpKeepsSlabs(a, end, a');
      KeptStill(a, a');
      forall q | q in a.huge ensures q in a.live { HugeIsLive(a, q); }
      HugeKept(a, a');
      TlsfKept(a, a');
      assert LiveOk(a') by { BumpOrigins(a, size, end, a', ptr); }
      assert BumpsApart(a') by { BumpsMore(a, size, a', ptr); }
    }
  }

  lemma BumpOrigins(a: Api, size: nat, end: nat, a': Api, ptr: nat)
    requires Inv(a) && size > 0 && end == a.nextFreePage + PagesFor(size) <= PAGES_PER_ARENA
    requires a.nextFreePage < PAGES_PER_ARENA && |a.records| == PAGES_PER_ARENA
    requires ptr == PageAddr(a.base, a.nextFreePage) && ptr !in a.live
    requires a' == a.(records := BumpedRecords(a.records, a.nextFreePage, end), nextFreePage := end,
                      live := a.live[ptr := BumpBlock(a.nextFreePage, size)])
    ensures LiveOk(a')
  {
    hide WellFormed, Live, RecordsOk, SlabsOk, StacksOk, TlsfOk, HugeOk, BumpsApart, SlotsKept, PagesFor, BumpedRecords;
    hide PageAddr, LiveOk, InUse;
    StepReady(a);
    BumpPages(size);
    BumpedAt(a.records, a.nextFreePage, end);
    forall q | q in a'.live ensures OriginOk(a', q, a'.live[q]) {
      if q != ptr { OriginBumped(a, end, a', q); }
    }
    assert LiveOk(a') by { AllOrigins(a'); }
  }

  lemma AllOrigins(a: Api)
    requires forall q :: q in a.live ==> OriginOk(a, q, a.live[q])
    ensures LiveOk(a)
  {
    hide OriginOk;
  }

  lemma BumpsMore(a: Api, size: nat, a': Api, ptr: nat)
    requires BumpsApart(a) && LiveOk(a) && ptr == PageAddr(a.base, a.nextFreePage) && ptr !in a.live
    requires a'.live == a.live[ptr := BumpBlock(a.nextFreePage, size)]
    ensures BumpsApart(a')
  {
    hide LiveOk, PageAddr, OriginOk;
    forall p, q | p in a'.live && q in a'.live && a'.live[p].BumpBlock? && a'.live[q].BumpBlock? && p != q
      ensures Apart(p, a'.live[p].size, q, a'.live[q].size)
    {
      if p == ptr { NewBumpApart(a, size, q); } else if q == ptr { NewBumpApart(a, size, p); }
    }
  }

  /** A fresh region has a fresh pointer. */
  lemma RegionIsFresh(a: Api, region: nat, total: nat)
    requires Inv(a) && FreshRegion(a, region, total) && total >= 2 * PAGE_SIZE
    ensures region + PAGE_SIZE !in a.live && region + PAGE_SIZE !in a.huge
  {
    hide WellFormed, Live, RecordsOk, SlabsOk, StacksOk, TlsfOk, BumpsApart, SlotsKept, OriginOk;
    var ptr := region + PAGE_SIZE;
    assert !InArena(a.base, ptr);
    if ptr in a.huge { RegionsApart(a, region, total, ptr); }
    if ptr in a.live { LivePage(a, ptr); }
  }

  lemma RegionsApart(a: Api, region: nat, total: nat, q: nat)
    requires HugeOk(a) && FreshRegion(a, region, total) && q in a.huge
    ensures q > PAGE_SIZE && a.huge[q] >= 2 * PAGE_SIZE && Apart(region, total, q - PAGE_SIZE, a.huge[q])
  {
  }

  /** A header page and just enough pages for the request. */
  lemma HugeTotalHolds(size: nat)
    ensures size + PAGE_SIZE <= HugeTotal(size) < size + 2 * PAGE_SIZE && HugeTotal(size) % PAGE_SIZE == 0
    ensures size > 0 ==> HugeTotal(size) >= 2 * PAGE_SIZE
  {
    var x := size + PAGE_SIZE + PAGE_SIZE - 1;
    DivBounds(x, PAGE_SIZE, x / PAGE_SIZE);
    MultipleOf(x / PAGE_SIZE, PAGE_SIZE);
  }

  lemma HugeMallocKeeps(a: Api, size: nat, r: nat)
    requires Inv(a) && size > 0 && FreshRegion(a, r, HugeTotal(size))
    ensures var (a', ptr) := HugeMalloc(a, size, Some(r));
      Inv(a') && ptr !in a.live && ptr == r + PAGE_SIZE && a'.live == a.live[ptr := HugeBlock(HugeTotal(size))]
  {
    hide WellFormed, Live, RecordsOk, SlabsOk, StacksOk, TlsfOk, BumpsApart, SlotsKept, HugeTotal, OriginOk, HugeOk;
    hide FreshRegion;
    var (a', ptr) := HugeMalloc(a, size, Some(r));
    HugeTotalHolds(size);
    RegionIsFresh(a, r, HugeTotal(size));
    SlabsStill(a, a');
    KeptStill(a, a');
    TlsfKept(a, a');
    BumpsKept(a, a');
    forall q | q in a'.live ensures OriginOk(a', q, a'.live[q]) {
      if q == ptr { HugeOrigin(a', q); } else { LiveBlock(a, q); OriginSame(a, a', q, a.live[q]); }
    }
    assert HugeOk(a') by { MoreHuge(a, size, r, a', ptr); }
  }

  lemma HugeOrigin(a: Api, q: nat)
    requires q in a.huge
    ensures OriginOk(a, q, HugeBlock(a.huge[q]))
  {
  }

  lemma MoreHuge(a: Api, size: nat, r: nat, a': Api, ptr: nat)
    requires HugeOk(a) && FreshRegion(a, r, HugeTotal(size)) && HugeTotal(size) >= 2 * PAGE_SIZE
    requires ptr == r + PAGE_SIZE && ptr !in a.huge && a'.base == a.base
    requires a'.huge == a.huge[ptr := HugeTotal(size)] && a'.live == a.live[ptr := HugeBlock(HugeTotal(size))]
    ensures HugeOk(a')
  {
    hide HugeTotal;
  }

  /** TLSF serves a large request if it can, else the arena; null changes nothing. */
  lemma LargeMallocKeeps(a: Api, size: nat)
    requires Inv(a) && size > 0 && WellFormed(a.tlsf) && size + ALIGN <= USIZE_MAX
    ensures var (a', ptr) := LargeMalloc(a, size);
      && Inv(a')
      && (ptr == 0 <==> AbstractHeap.Alloc(a.tlsf, size).0.None?
                        && a.nextFreePage * PAGE_SIZE + size > PAGES_PER_ARENA * PAGE_SIZE)
      && (if ptr == 0 then a' == a else ptr !in a.live && ptr in a'.live && a'.live == a.live[ptr := a'.live[ptr]])
      && (ptr != 0 && AbstractHeap.Alloc(a.tlsf, size).0.Some? ==>
            && a'.live[ptr].TlsfBlock? && a'.live[ptr].block == AbstractHeap.Alloc(a.tlsf, size).0.value - 1
            && a'.tlsf == AbstractHeap.Alloc(a.tlsf, size).1)
      && (ptr != 0 && AbstractHeap.Alloc(a.tlsf, size).0.None? ==>
            a'.live[ptr].BumpBlock? && a'.live[ptr].size == size && a'.tlsf == a.tlsf)
  {
    hide Inv, WellFormed, AbstractHeap.Alloc, TlsfPtr, PagesFor, PageAddr;
    var (p, h) := AbstractHeap.Alloc(a.tlsf, size);
    var (a', ptr) := LargeMalloc(a, size);
    if p.Some? {
      AllocatedPositive(a.tlsf, size);
      TlsfMallocKeeps(a, size, p.value - 1, h, a');
    } else {
      BumpMallocKeeps(a, size);
    }
  }

  lemma AllocatedPositive(h: Heap, size: nat)
    requires WellFormed(h) && size + ALIGN <= USIZE_MAX
    ensures AbstractHeap.Alloc(h, size).0.Some? ==> AbstractHeap.Alloc(h, size).0.value >= 1
  {
  }

  // ---------------------------------------------------------------------------------------------
  // free

  /** Two live slot pointers are the same pointer when they are the same slot. */
  lemma OneSlotOnePointer(a: Api, p: nat, q: nat)
    requires Inv(a) && p in a.live && q in a.live && a.live[p].SlabSlot? && a.live[q].SlabSlot?
    requires a.live[p].page == a.live[q].page && a.live[p].idx == a.live[q].idx
    ensures p == q
  {
    hide WellFormed, Live, PtrToPageIndex, RecordsOk, SlabsOk, StacksOk, HugeOk, TlsfOk, BumpsApart, SlotsKept, OriginOk;
    hide LiveOk, SlotAddr;
    LivePage(a, p);
    LivePage(a, q);
    SlotOrigin(a, p, a.live[p]);
    SlotOrigin(a, q, a.live[q]);
  }

  lemma SlotAtLive(a: Api, ptr: nat)
    requires Inv(a) && ptr in a.live && a.live[ptr].SlabSlot?
    ensures |a.records| == PAGES_PER_ARENA
    ensures var o := a.live[ptr];
      && SlotAt(a, ptr) == S.Slot(o.page, o.idx) && o.owner < |a.slabs| == |a.stacks|
      && InUse(a, o.owner, o.page, o.idx) && S.CanPush(a.slabs[o.owner], S.Slot(o.page, o.idx))
      && S.Slot(o.page, o.idx) !in a.stacks[o.owner]
  {
    LivePage(a, ptr);
    StepReady(a);
    var o := a.live[ptr];
    SlotOrigin(a, ptr, o);
    OwnedRecord(a, o.owner, o.page);
    hide WellFormed, Live, PtrToPageIndex, SlotIndex, RecordsOk, SlabsOk, StacksOk, HugeOk, TlsfOk, BumpsApart, SlotsKept;
    hide OriginOk, LiveOk, S.IsUsedSlot;
  }

  /** The owner frees its slot: it is free on its page, and no other slot of any slab changes. */
  lemma ReturnKeeps(a: Api, p: nat, a': Api)
    requires Inv(a) && p in a.live && a.live[p].SlabSlot? && a.live[p].owner < |a.slabs|
    requires var o := a.live[p];
      a' == Returned(a, o.owner, S.Slot(o.page, o.idx)).(live := a.live - {p})
    ensures Inv(a') && a'.stacks == a.stacks && a'.tlsf == a.tlsf && a'.huge == a.huge && |a'.slabs| == |a.slabs|
    ensures forall u, q, j :: 0 <= u < |a.slabs| ==>
              (S.IsFreeSlot(a'.slabs[u], q, j) <==>
               S.IsFreeSlot(a.slabs[u], q, j) || (u == a.live[p].owner && q == a.live[p].page && j == a.live[p].idx))
  {
    hide WellFormed, Live, SlotsPerPage, ClassToSize, SlotAddr, S.WellFormed, S.Push, S.SamePages, S.IsFreeSlot, InUse;
    hide RecordsOk, HugeOk, TlsfOk, BumpsApart, SlotsKept, OriginOk, LiveOk, StacksOk;
    StepReady(a);
    SlotAtLive(a, p);
    LiveBlock(a, p);
    SlotOrigin(a, p, a.live[p]);
    var o := a.live[p];
    var t := o.owner;
    var r := S.Push(a.slabs[t], o.page, o.idx);
    assert S.WellFormed(a.slabs[t]);
    UsedPush(a, t, o.page, o.idx);
    SlabSwapKeeps(a, t, r, a');
    RemovedPointer(a, a', p);
    ReturnedStacks(a, p, r, a');
    ReturnedOrigins(a, p, r, a');
    ReturnedKept(a, p, r, a');
  }

  lemma UsedPush(a: Api, t: nat, p: nat, i: nat)
    requires InUse(a, t, p, i) && S.WellFormed(a.slabs[t])
    ensures S.CanPush(a.slabs[t], S.Slot(p, i))
    ensures var r := S.Push(a.slabs[t], p, i);
      && S.WellFormed(r) && S.SamePages(a.slabs[t], r)
      && (forall q, j :: S.IsFreeSlot(r, q, j) <==> S.IsFreeSlot(a.slabs[t], q, j) || (q == p && j == i))
  {
    hide SlotsPerPage, S.Push;
    S.PushKeepsWellFormed(a.slabs[t], p, i);
    hide S.WellFormed;
    S.PushSamePages(a.slabs[t], p, i);
  }

  lemma ReturnedStacks(a: Api, p: nat, r: S.Slab, a': Api)
    requires Inv(a) && p in a.live && a.live[p].SlabSlot? && a.live[p].owner < |a.slabs|
    requires var o := a.live[p];
      && S.SamePages(a.slabs[o.owner], r) && a'.slabs == a.slabs[o.owner := r] && a'.stacks == a.stacks
      && (forall q, j :: S.IsFreeSlot(r, q, j) <==>
            S.IsFreeSlot(a.slabs[o.owner], q, j) || (q == o.page && j == o.idx))
    ensures StacksOk(a')
  {
    hide WellFormed, Live, S.IsFreeSlot, S.SamePages, InUse, RecordsOk, SlabsOk, HugeOk, TlsfOk, BumpsApart, SlotsKept;
    hide OriginOk, LiveOk;
    SlotAtLive(a, p);
    forall u, x | 0 <= u < |a'.stacks| && x in a'.stacks[u] ensures InUse(a', u, x.page, x.idx) {
      StackedInUse(a, u, x);
      UsedIsNotFree(a, u, x.page, x.idx);
      UseAfter(a, a.live[p].owner, r, a', u, x.page, x.idx);
    }
  }

  lemma ReturnedOrigins(a: Api, p: nat, r: S.Slab, a': Api)
    requires Inv(a) && p in a.live && a.live[p].SlabSlot? && a.live[p].owner < |a.slabs|
    requires var o := a.live[p];
      && S.SamePages(a.slabs[o.owner], r) && a' == a.(slabs := a.slabs[o.owner := r], live := a.live - {p})
      && (forall q, j :: S.IsFreeSlot(r, q, j) <==>
            S.IsFreeSlot(a.slabs[o.owner], q, j) || (q == o.page && j == o.idx))
    ensures LiveOk(a')
  {
    hide WellFormed, Live, S.IsFreeSlot, S.SamePages, InUse, RecordsOk, SlabsOk, HugeOk, TlsfOk, BumpsApart, SlotsKept;
    hide OriginOk, LiveOk, StacksOk;
    forall q | q in a'.live ensures OriginOk(a', q, a'.live[q]) {
      LiveBlock(a, q);
      if a.live[q].SlabSlot? {
        SlotOrigin(a, q, a.live[q]);
        UsedIsNotFree(a, a.live[q].owner, a.live[q].page, a.live[q].idx);
        if a.live[q].page == a.live[p].page && a.live[q].idx == a.live[p].idx { OneSlotOnePointer(a, p, q); }
      }
      OriginStill(a, a.live[p].owner, r, a', q, a.live[q]);
    }
    AllOrigins(a');
  }

  lemma ReturnedKept(a: Api, p: nat, r: S.Slab, a': Api)
    requires Inv(a) && p in a.live && a.live[p].SlabSlot? && a.live[p].owner < |a.slabs|
    requires var o := a.live[p];
      && S.SamePages(a.slabs[o.owner], r) && a' == a.(slabs := a.slabs[o.owner := r], live := a.live - {p})
      && (forall q, j :: S.IsFreeSlot(r, q, j) <==>
            S.IsFreeSlot(a.slabs[o.owner], q, j) || (q == o.page && j == o.idx))
    ensures SlotsKept(a')
  {
    hide WellFormed, Live, S.IsFreeSlot, S.SamePages, InUse, RecordsOk, SlabsOk, HugeOk, TlsfOk, BumpsApart;
    hide OriginOk, LiveOk, StacksOk, HasPointer;
    forall u: nat, q: nat, j: nat | InUse(a', u, q, j) && u < |a'.stacks|
      ensures S.Slot(q, j) in a'.stacks[u] || HasPointer(a', u, q, j)
    {
      UseAfter(a, a.live[p].owner, r, a', u, q, j);
      UsedIsNotFree(a', u, q, j);
      assert InUse(a, u, q, j);
      if HasPointer(a, u, q, j) { PointerLeft(a, p, r, a', u, q, j); }
    }
  }

  lemma PointerLeft(a: Api, p: nat, r: S.Slab, a': Api, u: nat, q: nat, j: nat)
    requires p in a.live && a.live[p].SlabSlot? && a.live[p].owner < |a.slabs|
    requires S.SamePages(a.slabs[a.live[p].owner], r) && a'.slabs == a.slabs[a.live[p].owner := r]
    requires a'.base == a.base && a'.live == a.live - {p}
    requires InUse(a, u, q, j) && InUse(a', u, q, j) && HasPointer(a, u, q, j)
    requires !(u == a.live[p].owner && q == a.live[p].page && j == a.live[p].idx)
    ensures HasPointer(a', u, q, j)
  {
    hide SlotsPerPage, ClassToSize, SlotAddr, S.SamePages;
    PointerStill(a, a.live[p].owner, r, a', u, q, j);
  }

  /** Another thread frees the slot: it goes on top of its owner's stack, and nothing else changes. */
  lemma StackKeeps(a: Api, p: nat, a': Api)
    requires Inv(a) && p in a.live && a.live[p].SlabSlot?
    requires var o := a.live[p];
      o.owner < |a.stacks|
      && a' == a.(stacks := a.stacks[o.owner := [S.Slot(o.page, o.idx)] + a.stacks[o.owner]], live := a.live - {p})
    ensures Inv(a')
  {
    hide WellFormed, Live, InUse, RecordsOk, HugeOk, TlsfOk, BumpsApart, OriginOk, LiveOk, SlotsKept;
    StepReady(a);
    SlotAtLive(a, p);
    var o := a.live[p];
    RemovedPointer(a, a', p);
    assert StacksOk(a') by {
      forall u, x | 0 <= u < |a'.stacks| && x in a'.stacks[u] ensures InUse(a', u, x.page, x.idx) {
        if x != S.Slot(o.page, o.idx) || u != o.owner { StackedInUse(a, u, x); }
        SameUse(a, a', u, x.page, x.idx);
      }
    }
    assert RecordsOk(a') && SlabsOk(a') by { SlabsUnmoved(a, a'); }
    StackedOrigins(a, p, a');
    StackedKept(a, p, a');
  }

  lemma SameUse(a: Api, a': Api, u: nat, p: nat, i: nat)
    requires a'.slabs == a.slabs
    ensures InUse(a', u, p, i) == InUse(a, u, p, i)
  {
  }

  lemma SlabsUnmoved(a: Api, a': Api)
    requires RecordsOk(a) && SlabsOk(a) && a' == a.(stacks := a'.stacks, live := a'.live)
    ensures RecordsOk(a') && SlabsOk(a')
  {
    hide S.WellFormed;
    forall u, q | 0 <= u < |a'.slabs| && q in a'.slabs[u].pages ensures PageOwned(a', u, q) {
      assert PageOwned(a, u, q);
    }
  }

  lemma StackedOrigins(a: Api, p: nat, a': Api)
    requires Inv(a) && p in a.live && a.live[p].SlabSlot? && a.live[p].owner < |a.stacks|
    requires var o := a.live[p];
      a' == a.(stacks := a.stacks[o.owner := [S.Slot(o.page, o.idx)] + a.stacks[o.owner]], live := a.live - {p})
    ensures LiveOk(a')
  {
    hide WellFormed, Live, InUse, RecordsOk, SlabsOk, StacksOk, HugeOk, TlsfOk, BumpsApart, SlotsKept, LiveOk, BumpOk;
    hide ClassToSize, SlotAddr, PageAddr, TlsfPtr;
    forall q | q in a'.live ensures OriginOk(a', q, a'.live[q]) {
      LiveBlock(a, q);
      if a.live[q].SlabSlot? {
        SlotOrigin(a, q, a.live[q]);
        SameUse(a, a', a.live[q].owner, a.live[q].page, a.live[q].idx);
        if a.live[q].page == a.live[p].page && a.live[q].idx == a.live[p].idx { OneSlotOnePointer(a, p, q); }
      } else {
        OriginNoSlot(a, a', q, a.live[q]);
      }
    }
    AllOrigins(a');
  }

  lemma OriginNoSlot(a: Api, a': Api, q: nat, o: Origin)
    requires OriginOk(a, q, o) && !o.SlabSlot? && a' == a.(slabs := a'.slabs, stacks := a'.stacks, live := a'.live)
    ensures OriginOk(a', q, o)
  {
    hide Live;
  }

  lemma StackedKept(a: Api, p: nat, a': Api)
    requires Inv(a) && p in a.live && a.live[p].SlabSlot? && a.live[p].owner < |a.stacks|
    requires var o := a.live[p];
      a' == a.(stacks := a.stacks[o.owner := [S.Slot(o.page, o.idx)] + a.stacks[o.owner]], live := a.live - {p})
    ensures SlotsKept(a')
  {
    hide WellFormed, Live, InUse, RecordsOk, SlabsOk, StacksOk, HugeOk, TlsfOk, BumpsApart, LiveOk, HasPointer;
    forall u: nat, q: nat, j: nat | InUse(a', u, q, j) && u < |a'.stacks|
      ensures S.Slot(q, j) in a'.stacks[u] || HasPointer(a', u, q, j)
    {
      SameUse(a, a', u, q, j);
      if HasPointer(a, u, q, j) && !(u == a.live[p].owner && q == a.live[p].page && j == a.live[p].idx) {
        PointerUnmoved(a, p, a', u, q, j);
      }
    }
  }

  lemma PointerUnmoved(a: Api, p: nat, a': Api, u: nat, q: nat, j: nat)
    requires p in a.live && a.live[p].SlabSlot? && a'.slabs == a.slabs && a'.base == a.base && a'.live == a.live - {p}
    requires InUse(a, u, q, j) && HasPointer(a, u, q, j)
    requires !(u == a.live[p].owner && q == a.live[p].page && j == a.live[p].idx)
    ensures InUse(a', u, q, j) && HasPointer(a', u, q, j)
  {
    hide SlotsPerPage, ClassToSize, SlotAddr;
  }

  /** free of a TLSF block: exactly that block stops being live. */
  lemma TlsfFreeKeeps(a: Api, p: nat, a': Api)
    requires Inv(a) && p in a.live && a.live[p].TlsfBlock? && a.live[p].block in a.tlsf.blocks
    requires a' == a.(tlsf := AbstractHeap.Free(a.tlsf, a.live[p].block), live := a.live - {p})
    ensures Inv(a')
  {
    hide WellFormed, AbstractHeap.Free, Live, OriginOk, TlsfPtr;
    hide RecordsOk, SlabsOk, StacksOk, HugeOk, BumpsApart, SlotsKept, LiveOk;
    var b := a.live[p].block;
    LiveBlock(a, p);
    LiveEntry(a.tlsf.blocks, b);
    StepReady(a);
    FreeKeepsWellFormed(a.tlsf, b);
    FreeRemovesOneLive(a.tlsf, b);
    LiveLess(a.tlsf.blocks, a'.tlsf.blocks, b);
    SlabsStill(a, a');
    KeptStill(a, a');
    forall q | q in a.huge ensures q in a'.live && a'.live[q] == a.live[q] { HugeIsLive(a, q); }
    HugeKept(a, a');
    BumpsKept(a, a');
    forall q | q in a'.live ensures OriginOk(a', q, a'.live[q]) {
      LiveBlock(a, q);
      OriginSame(a, a', q, a.live[q]);
    }
    AllOrigins(a');
    assert TlsfOk(a') by { LessTlsfOk(a, a', b); }
  }

  lemma LiveLess(blocks: Blocks, blocks': Blocks, b: nat)
    requires Live(blocks') == Live(blocks) - {b}
    ensures forall c :: c in Live(blocks') <==> c in Live(blocks) && c != b
  {
  }

  lemma LessTlsfOk(a: Api, a': Api, b: nat)
    requires TlsfOk(a) && WellFormed(a'.tlsf) && a'.tlsf.end == a.tlsf.end && a'.base == a.base
    requires forall c :: c in Live(a'.tlsf.blocks) <==> c in Live(a.tlsf.blocks) && c != b
    requires a'.live == a.live - {TlsfPtr(a, b)}
    ensures TlsfOk(a')
  {
    hide WellFormed, Live;
    forall c | c in Live(a'.tlsf.blocks) ensures TlsfPtr(a', c) in a'.live && a'.live[TlsfPtr(a', c)] == TlsfBlock(c) {
      assert TlsfPtr(a, c) in a.live && TlsfPtr(a, c) != TlsfPtr(a, b);
    }
  }

  /** free of a huge block: its region is gone. */
  lemma HugeFreeKeeps(a: Api, p: nat, a': Api)
    requires Inv(a) && p in a.live && a.live[p].HugeBlock?
    requires a' == a.(huge := a.huge - {p}, live := a.live - {p})
    ensures Inv(a')
  {
    hide WellFormed, Live, OriginOk, RecordsOk, SlabsOk, StacksOk, TlsfOk, BumpsApart, SlotsKept, LiveOk;
    SlabsStill(a, a');
    KeptStill(a, a');
    TlsfKept(a, a');
    BumpsKept(a, a');
    forall q | q in a'.live ensures OriginOk(a', q, a'.live[q]) {
      LiveBlock(a, q);
      OriginSame(a, a', q, a.live[q]);
    }
    AllOrigins(a');
  }

  /** free of a bump block: nothing happens. */
  lemma BumpFreeKeeps(a: Api, p: nat, a': Api)
    requires Inv(a) && p in a.live && a.live[p].BumpBlock? && a' == a.(live := a.live - {p})
    ensures Inv(a')
  {
    hide WellFormed, Live, OriginOk, RecordsOk, SlabsOk, StacksOk, HugeOk, TlsfOk, BumpsApart, SlotsKept, LiveOk;
    SlabsStill(a, a');
    KeptStill(a, a');
    RemovedPointer(a, a', p);
    forall q | q in a'.live ensures OriginOk(a', q, a'.live[q]) {
      LiveBlock(a, q);
      OriginSame(a, a', q, a.live[q]);
    }
    AllOrigins(a');
  }
}
