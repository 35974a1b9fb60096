/** The slab allocator: page records, page lists and embedded slot links updated in place, each method
    proved against the abstract slab. */
module SlabAllocator {
  import opened Lists
  import opened SizeClass
  import opened AbstractSlab
  import opened ArenaLayout
  import opened SlabMemory
  import Arena

  class Slabs {
    /** For each size class, the address of the first page record with a free slot. */
    const partialPages: array<nat>
    ghost var slab: Slab

    ghost predicate Valid(arena: Arena.Arena, owner: nat)
      reads this, partialPages, arena, arena.metas, arena.words
    {
      && arena.Valid()
      && partialPages.Length == NUM_SIZE_CLASSES && partialPages != arena.words
      && Rep(arena.base, arena.metas[..], arena.words[..], partialPages[..], slab, owner)
      && (forall p :: p in slab.pages ==> p < arena.nextFreePage)
    }

    /** Only records of pages this slab owns changed. */
    twostate predicate OnlyOwnMetas(metas: array<PageMeta>)
      requires metas.Length == PAGES_PER_ARENA
      reads this, metas
    {
      forall p :: 0 <= p < PAGES_PER_ARENA && p !in slab.pages ==> metas[p] == old(metas[p])
    }

    constructor ()
      ensures fresh(partialPages) && partialPages.Length == NUM_SIZE_CLASSES
      ensures slab == Slab(map[], seq(NUM_SIZE_CLASSES, _ => []))
      ensures forall k :: 0 <= k < NUM_SIZE_CLASSES ==> partialPages[k] == NULL_PAGE
    {
      partialPages := new nat[NUM_SIZE_CLASSES](_ => NULL_PAGE);
      slab := Slab(map[], seq(NUM_SIZE_CLASSES, _ => []));
    }

    /** Does a request of this class need a new page? */
    method AllocNeedsPage(class_: nat, ghost arena: Arena.Arena, ghost owner: nat) returns (r: bool)
      requires Valid(arena, owner) && class_ < NUM_SIZE_CLASSES
      ensures r <==> !HasPartial(slab, class_)
    {
      r := partialPages[class_] == NULL_PAGE;
      ghost var l := slab.partials[class_];
      if l != [] {
        PageInChain(arena.base, arena.metas[..], partialPages[..], slab, class_, 0);
        MetaRoundTrip(arena.base, l[0]);
      }
    }

    /** Take page `metaPtr`, the i-th of its class's list, off that list. */
    method RemovePartialPage(class_: nat, metaPtr: nat, arena: Arena.Arena, ghost partials: seq<seq<nat>>, ghost i: nat)
      requires class_ < NUM_SIZE_CLASSES && partialPages.Length == NUM_SIZE_CLASSES && partialPages != arena.words
      requires ListsRep(arena.base, arena.metas[..], partialPages[..], partials) && ListsDisjoint(partials)
      requires i < |partials[class_]| && metaPtr == MetaPtr(arena.base, partials[class_][i])
      modifies partialPages, arena.metas
      ensures forall j :: 0 <= j < |partials[class_]| ==> partials[class_][j] < arena.metas.Length
      ensures arena.metas[..] == Unlinked(arena.base, old(arena.metas[..]), partials[class_], i)
      ensures partialPages[..] ==
              if i == 0 then old(partialPages[..])[class_ := PagePtr(arena.base, partials[class_], 1)]
              else old(partialPages[..])
      ensures ListsRep(arena.base, arena.metas[..], partialPages[..],
                       partials[class_ := Without(partials[class_], partials[class_][i])])
    {
      ghost var l, base := partials[class_], arena.base;
      assert ChainRep(base, arena.metas[..], l);
      NodeBounds(base, arena.metas[..], l);
      assert NodeRep(base, arena.metas[..], l, i);
      if i > 0 { assert NodeRep(base, arena.metas[..], l, i - 1); MetaRoundTrip(base, l[i - 1]); }
      if i + 1 < |l| { assert NodeRep(base, arena.metas[..], l, i + 1); MetaRoundTrip(base, l[i + 1]); }
      MetaRoundTrip(base, l[i]);
      hide MetaPtr, ChainRep, ListsDisjoint;
      var m := MetaIndex(arena.base, metaPtr);
      var prev := arena.metas[m].prevPage;
      var next := arena.metas[m].nextPage;
      if prev != NULL_PAGE {
        var q := MetaIndex(arena.base, prev);
        arena.metas[q] := arena.metas[q].(nextPage := next);
      } else {
        partialPages[class_] := next;
      }
      if next != NULL_PAGE {
        var q := MetaIndex(arena.base, next);
        arena.metas[q] := arena.metas[q].(prevPage := prev);
      }
      arena.metas[m] := arena.metas[m].(prevPage := NULL_PAGE);
      arena.metas[m] := arena.metas[m].(nextPage := NULL_PAGE);
      assert arena.metas[..] == Unlinked(base, old(arena.metas[..]), l, i);
      UnlinkLists(base, old(arena.metas[..]), old(partialPages[..]), partials, class_, i, partialPages[..]);
    }

    /** Put page `metaPtr` in front of its class's list. */
    method PushPartialPage(class_: nat, metaPtr: nat, arena: Arena.Arena, ghost l: seq<nat>, ghost p: nat)
      requires class_ < NUM_SIZE_CLASSES && partialPages.Length == NUM_SIZE_CLASSES
      requires p < arena.metas.Length && metaPtr == MetaPtr(arena.base, p)
      requires partialPages[class_] == PagePtr(arena.base, l, 0) && (l != [] ==> l[0] < arena.metas.Length)
      modifies partialPages, arena.metas
      ensures arena.metas[..] == Linked(arena.base, old(arena.metas[..]), l, p)
      ensures partialPages[..] == old(partialPages[..])[class_ := metaPtr]
    {
      MetaRoundTrip(arena.base, p);
      if l != [] { MetaRoundTrip(arena.base, l[0]); }
      hide MetaPtr;
      var head := partialPages[class_];
      var m := MetaIndex(arena.base, metaPtr);
      arena.metas[m] := arena.metas[m].(prevPage := NULL_PAGE);
      arena.metas[m] := arena.metas[m].(nextPage := head);
      if head != NULL_PAGE {
        var q := MetaIndex(arena.base, head);
        arena.metas[q] := arena.metas[q].(prevPage := metaPtr);
      }
      partialPages[class_] := metaPtr;
    }

    /** Pop the first free slot of the page `metaPtr`, first of its class, found at `pageAddr`. */
    method TakeSlot(class_: nat, metaPtr: nat, pageAddr: nat, arena: Arena.Arena, ghost owner: nat) returns (ptr: nat)
      requires Valid(arena, owner) && HasPartial(slab, class_)
      requires metaPtr == partialPages[class_] && pageAddr == PageAddr(arena.base, slab.partials[class_][0])
      modifies this, partialPages, arena.metas
      ensures Valid(arena, owner)
      ensures var (p, i, r) := Pop(old(slab), class_);
        slab == r && class_ < NUM_SIZE_CLASSES && ptr == SlotAddr(arena.base, p, class_, i)
      ensures OnlyOwnMetas(arena.metas)
    {
      hide SlotsPerPage, SlotWord, MetaPtr, Unlinked, LinkRep, PageOk, NodeRep, ChainRep, WellFormed, ListsRep, PagesRep;
      hide FullDetached, ReadU16, MetaRep;
      ghost var base, m0, p := arena.base, arena.metas[..], slab.partials[class_][0];
      ghost var next := PopReading(base, m0, arena.words[..], partialPages[..], slab, owner, class_);
      PopRep(base, m0, arena.words[..], partialPages[..], slab, owner, class_, next);
      TakenSlot(base, m0, arena.words[..], slab, owner, class_, next);
      RecordKeepsLists(base, m0, partialPages[..], slab.partials, p, next, m0[p].usedSlots + 1);
      WellFormedDisjoint(slab);
      MetaRoundTrip(base, p);
      var m := MetaIndex(arena.base, metaPtr);
      var slotIdx := arena.metas[m].freeListHead;
      ptr := pageAddr + slotIdx * ClassToSize(class_);
      var nextIdx := ReadU16(arena.words[WordIndex(arena.base, ptr)]);
      arena.metas[m] := arena.metas[m].(freeListHead := nextIdx);
      arena.metas[m] := arena.metas[m].(usedSlots := arena.metas[m].usedSlots + 1);
      assert arena.metas[..] == Recorded(m0, p, next, m0[p].usedSlots + 1);
      // A page that is now full leaves its list.
      if nextIdx == NULL_SLOT {
        RemovePartialPage(class_, metaPtr, arena, slab.partials, 0);
      }
      assert arena.metas[..] == Popped(base, m0, slab.partials[class_], next);
      assert arena.words[..] == old(arena.words[..]);
      slab := Pop(slab, class_).2;
    }

    /** Fast path: allocate from the first partial page without consulting the arena. */
    method AllocNoArena(class_: nat, arena: Arena.Arena, ghost owner: nat) returns (ptr: nat)
      requires Valid(arena, owner) && HasPartial(slab, class_)
      modifies this, partialPages, arena.metas
      ensures Valid(arena, owner)
      ensures var (p, i, r) := Pop(old(slab), class_);
        slab == r && class_ < NUM_SIZE_CLASSES && ptr == SlotAddr(arena.base, p, class_, i)
      ensures OnlyOwnMetas(arena.metas)
    {
      hide SlotsPerPage, SlotWord, MetaPtr, LinkRep, PageOk, NodeRep, ChainRep, ListsRep, PagesRep, FullDetached, WellFormed;
      hide OnlyOwnMetas, SlotAddr, ReadU16, PageAddr;
      FirstPage(arena, owner, class_);
      var pageMetaPtr := partialPages[class_];
      var pageAddr := arena.metas[MetaIndex(arena.base, pageMetaPtr)].pageAddr;
      ptr := TakeSlot(class_, pageMetaPtr, pageAddr, arena, owner);
    }

    /** The page `partialPages` leads to, and the two ways to its address. */
    lemma FirstPage(arena: Arena.Arena, owner: nat, class_: nat)
      requires Valid(arena, owner) && HasPartial(slab, class_)
      ensures var p := slab.partials[class_][0];
        && class_ < NUM_SIZE_CLASSES && p < arena.metas.Length
        && partialPages[class_] == MetaPtr(arena.base, p) > 0 && partialPages[class_] >= arena.base + PAGE_SIZE
        && MetaIndex(arena.base, partialPages[class_]) == p
        && arena.metas[p].pageAddr == PageAddr(arena.base, p)
    {
      hide SlotsPerPage, SlotWord, LinkRep, PageOk, NodeRep, ChainRep, WellFormed, ReadU16;
      var next := PopReading(arena.base, arena.metas[..], arena.words[..], partialPages[..], slab, owner, class_);
      MetaRoundTrip(arena.base, slab.partials[class_][0]);
    }

    /** Allocate a slot, taking a new page from the arena when no page of the class has one; 0 when
        the arena is full. */
    method Alloc(class_: nat, arena: Arena.Arena, owner: nat) returns (ptr: nat)
      requires Valid(arena, owner) && class_ < NUM_SIZE_CLASSES
      modifies this, partialPages, arena, arena.metas, arena.words
      ensures Valid(arena, owner)
      ensures HasPartial(old(slab), class_) ==>
        && (var (p, i, r) := Pop(old(slab), class_); slab == r && ptr == SlotAddr(arena.base, p, class_, i))
        && arena.words[..] == old(arena.words[..]) && arena.nextFreePage == old(arena.nextFreePage)
      ensures !HasPartial(old(slab), class_) && old(arena.nextFreePage) < PAGES_PER_ARENA ==>
        && class_ < |old(slab).partials|
        && var q := old(arena.nextFreePage);
        && q !in old(slab).pages && HasPartial(AddPage(old(slab), q, class_), class_)
        && arena.nextFreePage == q + 1
        && (var (p, i, r) := Pop(AddPage(old(slab), q, class_), class_);
              p == q && slab == r && ptr == SlotAddr(arena.base, p, class_, i))
      ensures !HasPartial(old(slab), class_) && old(arena.nextFreePage) >= PAGES_PER_ARENA ==>
        ptr == 0 && slab == old(slab) && arena.nextFreePage == old(arena.nextFreePage)
      ensures OnlyOwnMetas(arena.metas)
      ensures forall w :: 0 <= w < ARENA_WORDS && w / PAGE_WORDS !in slab.pages ==> arena.words[w] == old(arena.words[w])
    {
      hide SlotsPerPage, SlotWord, MetaPtr, LinkRep, PageOk, NodeRep, ChainRep, ListsRep, PagesRep, FullDetached;
      hide SlotAddr, ReadU16, PageAddr;
      AddPageHasPartial(slab, arena.nextFreePage, class_);
      var needsPage := AllocNeedsPage(class_, arena, owner);
      if needsPage {
        var ok := NewPage(class_, arena, owner);
        if !ok {
          return 0;
        }
      }
      FirstPage(arena, owner, class_);
      var pageMetaPtr := partialPages[class_];
      var pageAddr := PageAddr(arena.base, MetaIndex(arena.base, pageMetaPtr));
      ptr := TakeSlot(class_, pageMetaPtr, pageAddr, arena, owner);
    }

    /** A new page of the class, ready in front of the (empty) partial list. */
    method NewPage(class_: nat, arena: Arena.Arena, owner: nat) returns (ok: bool)
      requires Valid(arena, owner) && class_ < NUM_SIZE_CLASSES && !HasPartial(slab, class_)
      modifies this, partialPages, arena, arena.metas, arena.words
      ensures Valid(arena, owner)
      ensures ok <==> old(arena.nextFreePage) < PAGES_PER_ARENA
      ensures !ok ==> slab == old(slab) && arena.nextFreePage == old(arena.nextFreePage)
      ensures ok ==>
        && arena.nextFreePage == old(arena.nextFreePage) + 1 && old(arena.nextFreePage) !in old(slab).pages
        && class_ < |old(slab).partials|
        && slab == AddPage(old(slab), old(arena.nextFreePage), class_)
      ensures OnlyOwnMetas(arena.metas)
      ensures forall w :: 0 <= w < ARENA_WORDS && w / PAGE_WORDS !in slab.pages ==> arena.words[w] == old(arena.words[w])
    {
      hide SlotWord, MetaPtr, LinkRep, PageOk, NodeRep, ChainRep, ListsRep, PagesRep, FullDetached, SlotsRep;
      ghost var base, m0, w0, heads0, p := arena.base, arena.metas[..], arena.words[..], partialPages[..], arena.nextFreePage;
      NoPartialMeansEmpty(slab, class_);
      HeadPointer(base, m0, heads0, slab.partials, class_);
      var metaPtr, pageAddr := arena.AllocPage();
      if metaPtr == 0 {
        MetaRoundTrip(base, p);
        return false;
      }
      ok := true;
      InitPage(metaPtr, pageAddr, class_, owner, arena, p);
      FreshRep(base, m0, w0, heads0, slab, owner, p, class_, arena.words[..]);
      ghost var m1 := arena.metas[..];
      MetaRoundTrip(base, p);
      PushPartialPage(class_, metaPtr, arena, [], p);
      assert arena.metas[..] == m1;
      slab := AddPage(slab, p, class_);
    }

    /** Give a new page its record and link its slots in order. */
    method InitPage(metaPtr: nat, pageBase: nat, class_: nat, owner: nat, arena: Arena.Arena, ghost p: nat)
      requires arena.metas.Length == PAGES_PER_ARENA && arena.words.Length == ARENA_WORDS && class_ < NUM_SIZE_CLASSES
      requires META_PAGES <= p < PAGES_PER_ARENA && metaPtr == MetaPtr(arena.base, p) && pageBase == PageAddr(arena.base, p)
      modifies arena.metas, arena.words
      ensures arena.metas[..] == old(arena.metas[..])[p := FreshMeta(arena.base, p, class_, owner)]
      ensures SlotsRep(arena.words[..], p, Page(class_, Upto(SlotsPerPage(class_))))
      ensures forall w: nat :: w < ARENA_WORDS && !(PAGE_WORDS * p <= w < PAGE_WORDS * (p + 1)) ==>
                arena.words[w] == old(arena.words[w])
    {
      hide ReadU16, WriteU16, SlotWord, MetaPtr, SlotsPerPage;
      MetaRoundTrip(arena.base, p);
      var m := MetaIndex(arena.base, metaPtr);
      arena.metas[m] := PageMeta(class_, owner, 0, 0, NULL_PAGE, NULL_PAGE, pageBase);
      var slotSize := ClassToSize(class_);
      var slots := SlotsPerPage(class_);
      for i := 0 to slots - 1
        modifies arena.words
        invariant forall j :: 0 <= j < i ==> LinkedOn(arena.words[..], p, class_, j)
        invariant forall w: nat :: w < ARENA_WORDS && !(PAGE_WORDS * p <= w < PAGE_WORDS * (p + 1)) ==>
                    arena.words[w] == old(arena.words[w])
      {
        SlotRoundTrip(arena.base, p, class_, i);
        var w := WordIndex(arena.base, pageBase + i * slotSize);
        ghost var before := arena.words[..];
        arena.words[w] := WriteU16(arena.words[w], i + 1);
        LinkOneMore(before, arena.words[..], p, class_, i, i + 1);
        SlotInPage(p, class_, i);
      }
      SlotRoundTrip(arena.base, p, class_, slots - 1);
      var w := WordIndex(arena.base, pageBase + (slots - 1) * slotSize);
      ghost var before := arena.words[..];
      arena.words[w] := WriteU16(arena.words[w], NULL_SLOT);
      LinkOneMore(before, arena.words[..], p, class_, slots - 1, NULL_SLOT);
      SlotInPage(p, class_, slots - 1);
      AllLinked(arena.words[..], p, class_);
    }

    /** Return slot i of page p: its u16 gets the old head, its page a new head; a page that was full
        goes in front of its class's list. */
    method ReturnSlot(ptr: nat, pageBase: nat, metaPtr: nat, arena: Arena.Arena, ghost owner: nat, ghost p: nat, ghost i: nat)
      requires Valid(arena, owner) && IsSlotAt(slab, arena.base, p, i, ptr) && pageBase == PageAddr(arena.base, p)
      requires metaPtr == MetaPtr(arena.base, p)
      modifies this, partialPages, arena.metas, arena.words
      ensures Valid(arena, owner) && slab == Push(old(slab), p, i)
      ensures OnlyOwnMetas(arena.metas)
      ensures WordOf(old(slab), p, i) < ARENA_WORDS && HeadSlot(old(slab).pages[p].free) < U16
      ensures arena.words[..] == Relinked(old(slab), p, i, old(arena.words[..]))
    {
      hide SlotsPerPage, MetaPtr, LinkRep, PageOk, NodeRep, ChainRep, WellFormed, PagesRep, FullDetached, WriteU16, MetaRep;
      ghost var base, m0, w0, k := arena.base, arena.metas[..], arena.words[..], slab.pages[p].class_;
      PushReading(base, m0, w0, partialPages[..], slab, owner, p, i);
      PushRep(base, m0, w0, partialPages[..], slab, owner, p, i);
      ReturnedSlot(base, m0, w0, slab, owner, p, i);
      HeadPointer(base, m0, partialPages[..], slab.partials, k);
      MetaRoundTrip(base, p);
      hide SlotWord, PageAddr, SlotAddr, ListsRep, WordIndex, ClassToSize;
      var m := MetaIndex(arena.base, metaPtr);
      var sizeClass := arena.metas[m].sizeClass;
      var slotIdx := (ptr - pageBase) / ClassToSize(sizeClass);
      var wasFull := arena.metas[m].freeListHead == NULL_SLOT;
      var w := WordIndex(arena.base, ptr);
      arena.words[w] := WriteU16(arena.words[w], arena.metas[m].freeListHead);
      arena.metas[m] := arena.metas[m].(freeListHead := slotIdx);
      arena.metas[m] := arena.metas[m].(usedSlots := arena.metas[m].usedSlots - 1);
      assert arena.metas[..] == Recorded(m0, p, i, m0[p].usedSlots - 1);
      if wasFull {
        PushPartialPage(sizeClass, metaPtr, arena, slab.partials[k], p);
      }
      assert arena.metas[..] == Pushed(base, m0, slab.partials[k], p, i);
      slab := Push(slab, p, i);
    }

    /** Fast path: free a slot of a page this thread owns, without consulting the arena. */
    method FreeNoArena(ptr: nat, metaPtr: nat, arena: Arena.Arena, ghost owner: nat, ghost p: nat, ghost i: nat)
      requires Valid(arena, owner) && IsSlotAt(slab, arena.base, p, i, ptr) && metaPtr == MetaPtr(arena.base, p)
      modifies this, partialPages, arena.metas, arena.words
      ensures Valid(arena, owner) && slab == Push(old(slab), p, i)
      ensures OnlyOwnMetas(arena.metas)
      ensures WordOf(old(slab), p, i) < ARENA_WORDS && HeadSlot(old(slab).pages[p].free) < U16
      ensures arena.words[..] == Relinked(old(slab), p, i, old(arena.words[..]))
    {
      hide SlotsPerPage, PageAddr, SlotAddr, Relinked, OnlyOwnMetas, MetaPtr;
      OwnedPage(arena, owner, p, i);
      var pageBase := arena.metas[MetaIndex(arena.base, metaPtr)].pageAddr;
      ReturnSlot(ptr, pageBase, metaPtr, arena, owner, p, i);
    }

    lemma OwnedPage(arena: Arena.Arena, owner: nat, p: nat, i: nat)
      requires Valid(arena, owner) && IsUsedSlot(slab, p, i)
      ensures p < arena.metas.Length && META_PAGES <= p < PAGES_PER_ARENA
      ensures MetaPtr(arena.base, p) >= arena.base + PAGE_SIZE && MetaIndex(arena.base, MetaPtr(arena.base, p)) == p
      ensures arena.metas[p].pageAddr == PageAddr(arena.base, p)
      ensures arena.metas[p].sizeClass == slab.pages[p].class_ && arena.metas[p].ownerId == owner
      ensures PtrToPageIndex(arena.base, SlotAddr(arena.base, p, slab.pages[p].class_, i)) == p
    {
      hide SlotsPerPage, LinkRep, NodeRep, ChainRep, WellFormed, ListsRep, SlotsRep;
      MetaRoundTrip(arena.base, p);
      assert MetaRep(arena.base, arena.metas[p], p, slab.pages[p], owner);
      SlotRoundTrip(arena.base, p, slab.pages[p].class_, i);
    }

    /** Free a slot, found through the arena; pointers into no slab page are ignored. */
    method Free(ptr: nat, arena: Arena.Arena, ghost owner: nat, ghost i: nat)
      requires Valid(arena, owner)
      requires var p := PtrToPageIndex(arena.base, ptr);
        p == 0 || arena.metas[p].sizeClass == NO_CLASS || IsSlotAt(slab, arena.base, p, i, ptr)
      modifies this, partialPages, arena.metas, arena.words
      ensures Valid(arena, owner) && OnlyOwnMetas(arena.metas)
      ensures var p := PtrToPageIndex(arena.base, ptr);
        if p == 0 || old(arena.metas[p]).sizeClass == NO_CLASS
        then slab == old(slab) && arena.metas[..] == old(arena.metas[..]) && arena.words[..] == old(arena.words[..])
        else
          && slab == Push(old(slab), p, i)
          && WordOf(old(slab), p, i) < ARENA_WORDS && HeadSlot(old(slab).pages[p].free) < U16
          && arena.words[..] == Relinked(old(slab), p, i, old(arena.words[..]))
    {
      var pageIndex := PtrToPageIndex(arena.base, ptr);
      if pageIndex == 0 {
        return;
      }
      hide SlotsPerPage, PageAddr, SlotAddr, Relinked, OnlyOwnMetas, MetaPtr, Rep, PtrToPageIndex;
      MetaRoundTrip(arena.base, pageIndex);
      var metaPtr := MetaPtr(arena.base, pageIndex);
      if arena.metas[MetaIndex(arena.base, metaPtr)].sizeClass == NO_CLASS {
        return;
      }
      ReturnSlot(ptr, PageAddr(arena.base, pageIndex), metaPtr, arena, owner, pageIndex, i);
    }

    /** Any thread writes a word of slot i of page p while the slot is in use: its caller, or a thread
        that links it into the owner's stack. The slab does not notice. */
    method WriteSlot(p: nat, i: nat, w: nat, value: nat, arena: Arena.Arena, ghost owner: nat)
      requires Valid(arena, owner) && IsUsedSlot(slab, p, i) && InSlot(p, slab.pages[p].class_, i, w)
      modifies arena.words
      ensures Valid(arena, owner) && slab == old(slab)
      ensures w < ARENA_WORDS && w / PAGE_WORDS == p && arena.words[..] == old(arena.words[..])[w := value]
    {
      hide Rep, InSlot, SlotsPerPage;
      ghost var words := arena.words[..];
      OwnedPage(arena, owner, p, i);
      SlotDataApart(p, slab.pages[p].class_, i, w, i);
      arena.words[w] := value;
      UsedSlotWrites(arena.base, arena.metas[..], words, partialPages[..], slab, owner, p, i, w, arena.words[..]);
    }

    /** Fast alloc then fast free of its result: records, lists, links and memory are all as before. */
    method AllocThenFree(class_: nat, arena: Arena.Arena, ghost owner: nat) returns (ptr: nat)
      requires Valid(arena, owner) && HasPartial(slab, class_)
      modifies this, partialPages, arena.metas, arena.words
      ensures Valid(arena, owner) && slab == old(slab)
      ensures arena.metas[..] == old(arena.metas[..]) && partialPages[..] == old(partialPages[..])
      ensures arena.words[..] == old(arena.words[..])
    {
      hide SlotsPerPage, PageAddr, SlotAddr, MetaPtr, Rep, PtrToPageIndex, SlotWord, ReadU16, WriteU16;
      ghost var s0, m0, h0, w0 := slab, arena.metas[..], partialPages[..], arena.words[..];
      ghost var (p, i, r) := Pop(slab, class_);
      RepWellFormed(arena.base, m0, w0, h0, slab, owner);
      PushUndoesPop(slab, class_);
      PopKeepsWellFormed(slab, class_);
      FirstPage(arena, owner, class_);
      RestoredWord(arena.base, m0, w0, h0, slab, owner, class_);
      var metaPtr := partialPages[class_];
      ptr := AllocNoArena(class_, arena, owner);
      FreeNoArena(ptr, metaPtr, arena, owner, p, i);
      RepDetermined(arena.base, m0, w0, h0, arena.metas[..], arena.words[..], partialPages[..], slab, owner);
      assert arena.metas[..] == m0;
    }
  }

  /** Slot i of page p is in use, and lies at `ptr`. */
  ghost predicate IsSlotAt(s: Slab, base: nat, p: nat, i: nat, ptr: nat) {
    IsUsedSlot(s, p, i) && ptr == SlotAddr(base, p, s.pages[p].class_, i)
  }

  /** The word that holds slot i of page p's link. */
  ghost function WordOf(s: Slab, p: nat, i: nat): nat
    requires IsUsedSlot(s, p, i)
  {
    SlotWord(p, s.pages[p].class_, i)
  }

  /** Memory after slot i was put back in front of page p's free slots. */
  ghost function Relinked(s: Slab, p: nat, i: nat, words: Words): Words
    requires IsUsedSlot(s, p, i) && WordOf(s, p, i) < |words| && HeadSlot(s.pages[p].free) < U16
  {
    words[WordOf(s, p, i) := WriteU16(words[WordOf(s, p, i)], HeadSlot(s.pages[p].free))]
  }

  /** Putting a slot back writes to its own page only. */
  lemma RelinkedFrame(s: Slab, p: nat, i: nat, words: Words)
    requires IsUsedSlot(s, p, i) && WordOf(s, p, i) < |words| && HeadSlot(s.pages[p].free) < U16
    ensures var words' := Relinked(s, p, i, words);
      && |words'| == |words|
      && (forall w: nat :: w < |words| && w != WordOf(s, p, i) ==> words'[w] == words[w])
    ensures WordOf(s, p, i) / PAGE_WORDS == p
  {
    SlotInPage(p, s.pages[p].class_, i);
  }

  /** Where the returned slot is. */
  lemma ReturnedSlot(base: nat, m: Metas, words: Words, s: Slab, owner: nat, p: nat, i: nat)
    requires IsUsedSlot(s, p, i) && PushReads(base, m, words, s, owner, p, i) && |words| == ARENA_WORDS
    ensures var k := s.pages[p].class_;
      var a := SlotAddr(base, p, k, i);
      && m[p].sizeClass == k && META_PAGES <= p < PAGES_PER_ARENA && a >= PageAddr(base, p) >= base
      && (a - PageAddr(base, p)) / ClassToSize(k) == i && WordIndex(base, a) == SlotWord(p, k, i) < ARENA_WORDS
      && WordIndex(base, a) / PAGE_WORDS == p && PtrToPageIndex(base, a) == p
  {
    SlotRoundTrip(base, p, s.pages[p].class_, i);
    SlotInPage(p, s.pages[p].class_, i);
  }

  lemma AddPageHasPartial(s: Slab, p: nat, class_: nat)
    requires WellFormed(s) && class_ < NUM_SIZE_CLASSES
    ensures HasPartial(AddPage(s, p, class_), class_)
  {
    hide ClassToSize;
    assert AddPage(s, p, class_).pages[p].free[0] == 0;
  }

  lemma HeadPointer(base: nat, m: Metas, heads: seq<nat>, partials: seq<seq<nat>>, class_: nat)
    requires ListsRep(base, m, heads, partials) && class_ < NUM_SIZE_CLASSES
    ensures heads[class_] == PagePtr(base, partials[class_], 0)
  {
  }

  /** The u16 at the start of slot j is `next`. */
  ghost predicate Linked16(words: Words, p: nat, class_: nat, j: nat, next: nat)
    requires class_ < NUM_SIZE_CLASSES
  {
    SlotWord(p, class_, j) < |words| && ReadU16(words[SlotWord(p, class_, j)]) == next
  }

  ghost predicate LinkedOn(words: Words, p: nat, class_: nat, j: nat)
    requires class_ < NUM_SIZE_CLASSES
  {
    Linked16(words, p, class_, j, j + 1)
  }

  /** Writing slot i's link keeps the links of the slots before it. */
  lemma LinkOneMore(words: Words, words': Words, p: nat, class_: nat, i: nat, next: nat)
    requires class_ < NUM_SIZE_CLASSES && i < SlotsPerPage(class_) && next < U16 && SlotWord(p, class_, i) < |words|
    requires forall j :: 0 <= j < i ==> LinkedOn(words, p, class_, j)
    requires words' == words[SlotWord(p, class_, i) := WriteU16(words[SlotWord(p, class_, i)], next)]
    ensures forall j :: 0 <= j < i ==> LinkedOn(words', p, class_, j)
    ensures Linked16(words', p, class_, i, next)
  {
    hide SlotWord, SlotsPerPage;
    ReadWritten(words[SlotWord(p, class_, i)], next);
    forall j | 0 <= j < i ensures LinkedOn(words', p, class_, j) {
      assert LinkedOn(words, p, class_, j);
      SlotWordsDistinct(p, class_, i, p, class_, j);
    }
  }

  lemma AllLinked(words: Words, p: nat, class_: nat)
    requires class_ < NUM_SIZE_CLASSES
    requires forall j :: 0 <= j < SlotsPerPage(class_) - 1 ==> LinkedOn(words, p, class_, j)
    requires Linked16(words, p, class_, SlotsPerPage(class_) - 1, NULL_SLOT)
    ensures SlotsRep(words, p, Page(class_, Upto(SlotsPerPage(class_))))
  {
    hide SlotWord, ReadU16;
    var page := Page(class_, Upto(SlotsPerPage(class_)));
    forall i | 0 <= i < |page.free| ensures LinkRep(words, p, page, i) {
      assert i < SlotsPerPage(class_) - 1 ==> LinkedOn(words, p, class_, i);
    }
  }

  lemma RepWellFormed(base: nat, m: Metas, words: Words, heads: seq<nat>, s: Slab, owner: nat)
    requires Rep(base, m, words, heads, s, owner)
    ensures WellFormed(s)
  {
  }

  /** Putting a popped slot back writes the u16 that is already there. */
  lemma RestoredWord(base: nat, m: Metas, words: Words, heads: seq<nat>, s: Slab, owner: nat, class_: nat)
    requires Rep(base, m, words, heads, s, owner) && HasPartial(s, class_)
    ensures var (p, i, r) := Pop(s, class_);
      && IsUsedSlot(r, p, i) && WordOf(r, p, i) < |words| && HeadSlot(r.pages[p].free) < U16
      && Relinked(r, p, i, words) == words
  {
    PushUndoesPop(s, class_);
    var next := PopReading(base, m, words, heads, s, owner, class_);
    hide SlotsPerPage, PageAddr, SlotAddr, MetaPtr, Rep, SlotWord, ReadU16, WriteU16;
    var (p, i, r) := Pop(s, class_);
    ReWritten(words[WordOf(r, p, i)]);
  }
}
