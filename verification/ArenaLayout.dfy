/** The address arithmetic of the arena: pages, page metadata, slots. */
module ArenaLayout {
  import opened Arithmetic
  import opened SizeClass

  const ARENA_SIZE: nat := 0x20_0000
  const PAGES_PER_ARENA: nat := 512
  const META_PAGES: nat := 5
  const DATA_START_OFFSET: nat := META_PAGES * PAGE_SIZE
  const PAGE_META_SIZE: nat := 32
  /** 64-bit words of a page, and of the arena. */
  const PAGE_WORDS: nat := 512
  const ARENA_WORDS: nat := 0x4_0000

  function PageAddr(base: nat, p: nat): nat {
    base + p * PAGE_SIZE
  }

  /** Address of page p's metadata: the array starts on page 1. */
  function MetaPtr(base: nat, p: nat): nat {
    base + PAGE_SIZE + p * PAGE_META_SIZE
  }

  function MetaIndex(base: nat, ptr: nat): nat
    requires base + PAGE_SIZE <= ptr
  {
    (ptr - (base + PAGE_SIZE)) / PAGE_META_SIZE
  }

  predicate InArena(base: nat, addr: nat) {
    base <= addr < base + ARENA_SIZE
  }

  /** Page of an address; 0 when it is outside the arena or inside its metadata. */
  function PtrToPageIndex(base: nat, addr: nat): (p: nat)
    ensures p < PAGES_PER_ARENA
  {
    if addr < base + DATA_START_OFFSET || addr >= base + ARENA_SIZE then 0
    else (addr - base) / PAGE_SIZE
  }

  function SlotAddr(base: nat, p: nat, class_: nat, i: nat): nat
    requires class_ < NUM_SIZE_CLASSES
  {
    PageAddr(base, p) + i * ClassToSize(class_)
  }

  function SlotIndex(base: nat, p: nat, class_: nat, addr: nat): nat
    requires class_ < NUM_SIZE_CLASSES && PageAddr(base, p) <= addr
  {
    (addr - PageAddr(base, p)) / ClassToSize(class_)
  }

  function WordIndex(base: nat, addr: nat): nat
    requires base <= addr
  {
    (addr - base) / 8
  }

  /** The word that holds the link of slot i. */
  function SlotWord(p: nat, class_: nat, i: nat): nat
    requires class_ < NUM_SIZE_CLASSES
  {
    PAGE_WORDS * p + i * (ClassToSize(class_) / 8)
  }

  /** Page p's metadata lies after the first page and, for a page of the arena, before the first data page. */
  lemma MetaRoundTrip(base: nat, p: nat)
    ensures MetaPtr(base, p) >= base + PAGE_SIZE && MetaPtr(base, p) > 0
    ensures MetaIndex(base, MetaPtr(base, p)) == p
    ensures p < PAGES_PER_ARENA ==> MetaPtr(base, p) + PAGE_META_SIZE <= base + DATA_START_OFFSET
  {
  }

  /** A slot lies inside its page, first word included. */
  lemma SlotInPage(p: nat, class_: nat, i: nat)
    requires class_ < NUM_SIZE_CLASSES && i < SlotsPerPage(class_)
    ensures PAGE_WORDS * p <= SlotWord(p, class_, i) < PAGE_WORDS * (p + 1)
    ensures i * ClassToSize(class_) + ClassToSize(class_) <= PAGE_SIZE
  {
    var d, n := ClassToSize(class_), SlotsPerPage(class_);
    MulLess(i, n, d);
    EighthOf(i, d);
  }

  lemma EighthOf(i: nat, d: nat)
    requires d % 8 == 0
    ensures i * d == 8 * (i * (d / 8))
  {
    assert d == 8 * (d / 8);
  }

  lemma PageOffset(p: nat, w: nat)
    requires w < PAGE_WORDS
    ensures (p * PAGE_SIZE + 8 * w) / PAGE_SIZE == p && (p * PAGE_SIZE + 8 * w) / 8 == PAGE_WORDS * p + w
  {
    DivBounds(p * PAGE_SIZE + 8 * w, PAGE_SIZE, p);
    DivBounds(p * PAGE_SIZE + 8 * w, 8, PAGE_WORDS * p + w);
  }

  /** An address the allocator handed out leads back to its page, its slot and its word. */
  lemma SlotRoundTrip(base: nat, p: nat, class_: nat, i: nat)
    requires class_ < NUM_SIZE_CLASSES && i < SlotsPerPage(class_) && META_PAGES <= p < PAGES_PER_ARENA
    ensures var a := SlotAddr(base, p, class_, i);
      && InArena(base, a) && PageAddr(base, p) <= a
      && PtrToPageIndex(base, a) == p && SlotIndex(base, p, class_, a) == i
      && WordIndex(base, a) == SlotWord(p, class_, i) < ARENA_WORDS
  {
    hide ClassToSize, SlotsPerPage;
    var size := ClassToSize(class_);
    SlotInPage(p, class_, i);
    DivBounds(i * size, size, i);
    EighthOf(i, size);
    PageOffset(p, i * (size / 8));
  }

  /** Distinct slots of a page have distinct link words; slots of different pages too. */
  lemma SlotWordsDistinct(p: nat, class_: nat, i: nat, q: nat, class': nat, j: nat)
    requires class_ < NUM_SIZE_CLASSES && i < SlotsPerPage(class_)
    requires class' < NUM_SIZE_CLASSES && j < SlotsPerPage(class')
    ensures SlotWord(p, class_, i) == SlotWord(q, class', j) ==> p == q
    ensures p == q && class_ == class' && i != j ==> SlotWord(p, class_, i) != SlotWord(q, class', j)
  {
    SlotInPage(p, class_, i);
    SlotInPage(q, class', j);
    var d := ClassToSize(class_) / 8;
    if i < j { MulLess(i, j, d); }
    if j < i { MulLess(j, i, d); }
  }

  /** Word w belongs to slot i. */
  predicate InSlot(p: nat, class_: nat, i: nat, w: nat)
    requires class_ < NUM_SIZE_CLASSES
  {
    SlotWord(p, class_, i) <= w < SlotWord(p, class_, i) + ClassToSize(class_) / 8
  }

  /** The words of a slot lie on its page, apart from the link words of the page's other slots. */
  lemma SlotDataApart(p: nat, class_: nat, i: nat, w: nat, j: nat)
    requires class_ < NUM_SIZE_CLASSES && i < SlotsPerPage(class_) && InSlot(p, class_, i, w)
    ensures w / PAGE_WORDS == p
    ensures i != j ==> w != SlotWord(p, class_, j)
  {
    var d := ClassToSize(class_) / 8;
    SlotInPage(p, class_, i);
    EighthOf(i, ClassToSize(class_));
    hide ClassToSize, SlotsPerPage;
    assert PAGE_WORDS * p <= w < PAGE_WORDS * p + PAGE_WORDS;
    DivBounds(w, PAGE_WORDS, p);
    if i < j { MulLess(i, j, d); }
    if j < i { MulLess(j, i, d); }
  }
}
