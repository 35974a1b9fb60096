/** The arena: one region of 512 pages, handed out from the bottom by bumping a counter. */
module Arena {
  import opened SizeClass
  import opened ArenaLayout
  import opened SlabMemory

  class Arena {
    const base: nat
    var nextFreePage: nat
    var allocCount: nat
    /** Page metadata records, and the data pages as 64-bit words. */
    const metas: array<PageMeta>
    const words: array<nat>

    ghost predicate Valid()
      reads this, metas
    {
      && base > 0 && base % PAGE_SIZE == 0
      && metas.Length == PAGES_PER_ARENA && words.Length == ARENA_WORDS
      && META_PAGES <= nextFreePage <= PAGES_PER_ARENA
      && forall p :: nextFreePage <= p < PAGES_PER_ARENA ==> metas[p].sizeClass == NO_CLASS
    }

    /** `new`: over a page-aligned region that the operating system has just mapped. */
    constructor (base: nat)
      requires base > 0 && base % PAGE_SIZE == 0
      ensures Valid() && fresh(metas) && fresh(words)
      ensures nextFreePage == META_PAGES && this.base == base
      ensures forall p :: 0 <= p < PAGES_PER_ARENA ==> metas[p] == EMPTY_META
    {
      this.base := base;
      nextFreePage, allocCount := META_PAGES, 0;
      metas := new PageMeta[PAGES_PER_ARENA](_ => EMPTY_META);
      words := new nat[ARENA_WORDS](_ => 0);
    }

    /** Hand out the next page: its metadata pointer and its address, both 0 when the arena is full. */
    method AllocPage() returns (metaPtr: nat, addr: nat)
      requires Valid()
      modifies this`nextFreePage, this`allocCount
      ensures Valid()
      ensures old(nextFreePage) >= PAGES_PER_ARENA ==>
                metaPtr == 0 && addr == 0 && nextFreePage == old(nextFreePage) && allocCount == old(allocCount)
      ensures old(nextFreePage) < PAGES_PER_ARENA ==>
                && metaPtr == MetaPtr(base, old(nextFreePage)) && addr == PageAddr(base, old(nextFreePage))
                && nextFreePage == old(nextFreePage) + 1 && allocCount == old(allocCount) + 1
    {
      var pageIdx := nextFreePage;
      if pageIdx >= PAGES_PER_ARENA {
        return 0, 0;
      }
      nextFreePage := nextFreePage + 1;
      allocCount := allocCount + 1;
      metaPtr, addr := MetaPtr(base, pageIdx), PageAddr(base, pageIdx);
    }

    /** Bump-allocate whole pages; they stay marked as belonging to no size class. */
    method Alloc(size: nat) returns (addr: nat)
      requires Valid()
      modifies this`nextFreePage, this`allocCount, metas
      ensures Valid()
      ensures var pages := (size + PAGE_SIZE - 1) / PAGE_SIZE;
        if size == 0 || old(nextFreePage) + pages > PAGES_PER_ARENA
        then addr == 0 && nextFreePage == old(nextFreePage) && allocCount == old(allocCount) && metas[..] == old(metas[..])
        else
          && allocCount == old(allocCount) + 1
          && addr == PageAddr(base, old(nextFreePage)) && nextFreePage == old(nextFreePage) + pages
          && (forall p :: 0 <= p < PAGES_PER_ARENA ==>
                metas[p] == if old(nextFreePage) <= p < nextFreePage then old(metas[p]).(sizeClass := NO_CLASS)
                            else old(metas[p]))
    {
      if size == 0 {
        return 0;
      }
      var pagesNeeded := (size + PAGE_SIZE - 1) / PAGE_SIZE;
      var startPage := nextFreePage;
      var endPage := startPage + pagesNeeded;
      if endPage > PAGES_PER_ARENA {
        return 0;
      }
      nextFreePage := endPage;
      allocCount := allocCount + 1;
      for i := startPage to endPage
        modifies metas
        invariant forall p :: 0 <= p < PAGES_PER_ARENA ==>
                    metas[p] == if startPage <= p < i then old(metas[p]).(sizeClass := NO_CLASS) else old(metas[p])
      {
        metas[i] := metas[i].(sizeClass := NO_CLASS);
      }
      addr := PageAddr(base, startPage);
    }
  }
}
