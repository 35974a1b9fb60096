/** How the abstract slab is laid out: page metadata records, page lists linked through them, and free
    slots linked by a u16 index in the low bits of each free slot's first word. */
module SlabMemory {
  import opened Lists
  import opened SizeClass
  import opened AbstractSlab
  import opened ArenaLayout

  const NULL_SLOT: nat := 0xFFFF
  const NULL_PAGE: nat := 0
  const NO_CLASS: nat := 0xFF
  const NO_OWNER: nat := 0xFFFF
  const U16: nat := 0x1_0000

  datatype PageMeta = PageMeta(sizeClass: nat, ownerId: nat, usedSlots: nat, freeListHead: nat,
                               nextPage: nat, prevPage: nat, pageAddr: nat)

  const EMPTY_META := PageMeta(NO_CLASS, NO_OWNER, 0, NULL_SLOT, NULL_PAGE, NULL_PAGE, 0)

  type Metas = seq<PageMeta>
  type Words = seq<nat>

  /** Reading the first two bytes of a little-endian word, and overwriting them. */
  function ReadU16(w: nat): nat { w % U16 }

  function WriteU16(w: nat, v: nat): nat
    requires v < U16
  {
    w - w % U16 + v
  }

  lemma ReadWritten(w: nat, v: nat)
    requires v < U16
    ensures ReadU16(WriteU16(w, v)) == v
  {
  }

  // ---------------------------------------------------------------------------------------------
  // Free slots of a page

  function HeadSlot(free: seq<nat>): nat {
    if free == [] then NULL_SLOT else free[0]
  }

  function NextSlot(free: seq<nat>, i: nat): nat
    requires i < |free|
  {
    if i == |free| - 1 then NULL_SLOT else free[i + 1]
  }

  ghost predicate LinkRep(words: Words, p: nat, page: Page, i: nat)
    requires page.class_ < NUM_SIZE_CLASSES && i < |page.free|
  {
    var w := SlotWord(p, page.class_, page.free[i]);
    w < |words| && ReadU16(words[w]) == NextSlot(page.free, i)
  }

  /** Following the links from the head visits the free slots in order and ends at NULL_SLOT. */
  ghost predicate SlotsRep(words: Words, p: nat, page: Page) {
    && PageOk(page)
    && forall i :: 0 <= i < |page.free| ==> LinkRep(words, p, page, i)
  }

  ghost predicate MetaRep(base: nat, meta: PageMeta, p: nat, page: Page, owner: nat) {
    && META_PAGES <= p < PAGES_PER_ARENA
    && PageOk(page)
    && meta.sizeClass == page.class_ && meta.ownerId == owner && meta.pageAddr == PageAddr(base, p)
    && meta.freeListHead == HeadSlot(page.free)
    && meta.usedSlots + |page.free| == SlotsPerPage(page.class_)
  }

  // ---------------------------------------------------------------------------------------------
  // Page lists

  function PagePtr(base: nat, l: seq<nat>, i: int): nat {
    if 0 <= i < |l| then MetaPtr(base, l[i]) else NULL_PAGE
  }

  ghost predicate NodeRep(base: nat, metas: Metas, l: seq<nat>, i: nat)
    requires i < |l|
  {
    && l[i] < |metas|
    && metas[l[i]].prevPage == PagePtr(base, l, i - 1)
    && metas[l[i]].nextPage == PagePtr(base, l, i + 1)
  }

  ghost predicate ChainRep(base: nat, metas: Metas, l: seq<nat>) {
    forall i :: 0 <= i < |l| ==> NodeRep(base, metas, l, i)
  }

  // ---------------------------------------------------------------------------------------------
  // The whole slab of one owner

  ghost predicate PagesRep(base: nat, metas: Metas, words: Words, pages: map<nat, Page>, owner: nat) {
    && |metas| == PAGES_PER_ARENA
    && |words| == ARENA_WORDS
    && (forall p :: p in pages ==> p < PAGES_PER_ARENA && MetaRep(base, metas[p], p, pages[p], owner))
    && (forall p :: p in pages ==> SlotsRep(words, p, pages[p]))
  }

  ghost predicate ListsRep(base: nat, metas: Metas, heads: seq<nat>, partials: seq<seq<nat>>) {
    && |heads| == |partials| == NUM_SIZE_CLASSES
    && (forall k :: 0 <= k < NUM_SIZE_CLASSES ==> heads[k] == PagePtr(base, partials[k], 0))
    && (forall k :: 0 <= k < NUM_SIZE_CLASSES ==> ChainRep(base, metas, partials[k]))
  }

  /** A page without a free slot has null links. */
  ghost predicate FullDetached(metas: Metas, pages: map<nat, Page>) {
    forall p :: p in pages && pages[p].free == [] && p < |metas| ==>
      metas[p].nextPage == NULL_PAGE && metas[p].prevPage == NULL_PAGE
  }

  ghost predicate Rep(base: nat, metas: Metas, words: Words, heads: seq<nat>, s: Slab, owner: nat) {
    && WellFormed(s)
    && PagesRep(base, metas, words, s.pages, owner)
    && FullDetached(metas, s.pages)
    && ListsRep(base, metas, heads, s.partials)
  }

  ghost predicate ListsDisjoint(partials: seq<seq<nat>>) {
    && |partials| == NUM_SIZE_CLASSES
    && (forall k :: 0 <= k < NUM_SIZE_CLASSES ==> Distinct(partials[k]))
    && (forall j, k, p :: 0 <= j < NUM_SIZE_CLASSES && 0 <= k < NUM_SIZE_CLASSES && p in partials[j] && p in partials[k]
          ==> j == k)
  }

  lemma WellFormedDisjoint(s: Slab)
    requires WellFormed(s)
    ensures ListsDisjoint(s.partials)
  {
    forall j, k, p | 0 <= j < NUM_SIZE_CLASSES && 0 <= k < NUM_SIZE_CLASSES && p in s.partials[j] && p in s.partials[k]
      ensures j == k
    {
      ClassOfListed(s, j, p);
      ClassOfListed(s, k, p);
    }
  }

  /** Records differ in the list links of the pages of l only. */
  ghost predicate OnlyLinks(m: Metas, n: Metas, l: seq<nat>) {
    && |n| == |m|
    && (forall p: nat :: p < |m| && p !in l ==> n[p] == m[p])
    && (forall p: nat :: p < |m| ==> n[p] == m[p].(nextPage := n[p].nextPage, prevPage := n[p].prevPage))
  }

  lemma FrameChain(base: nat, m: Metas, n: Metas, l: seq<nat>)
    requires ChainRep(base, m, l) && |n| == |m|
    requires forall p :: p in l && p < |m| ==> n[p].nextPage == m[p].nextPage && n[p].prevPage == m[p].prevPage
    ensures ChainRep(base, n, l)
  {
    forall i | 0 <= i < |l| ensures NodeRep(base, n, l, i) {
      assert NodeRep(base, m, l, i) && l[i] in l;
    }
  }

  /** push_partial_page: page p goes in front of l. */
  lemma PushPage(base: nat, m: Metas, l: seq<nat>, p: nat, n: Metas)
    requires ChainRep(base, m, l) && Distinct(l) && p !in l && p < |m| && (l != [] ==> NodeRep(base, m, l, 0))
    requires var m1 := m[p := m[p].(prevPage := NULL_PAGE, nextPage := PagePtr(base, l, 0))];
      n == if l == [] then m1 else m1[l[0] := m1[l[0]].(prevPage := MetaPtr(base, p))]
    ensures ChainRep(base, n, [p] + l) && OnlyLinks(m, n, [p] + l)
  {
    var r := [p] + l;
    forall i | 0 <= i < |r| ensures NodeRep(base, n, r, i) {
      if i > 0 {
        assert NodeRep(base, m, l, i - 1) && r[i] == l[i - 1] && l[i - 1] in l;
        if i > 1 { assert l[i - 1] != l[0]; }
      }
    }
  }

  /** What remove_partial_page makes of the records when page l[i] leaves l. */
  function Unlinked(base: nat, m: Metas, l: seq<nat>, i: nat): Metas
    requires i < |l| && l[i] < |m|
    requires (i > 0 ==> l[i - 1] < |m|) && (i + 1 < |l| ==> l[i + 1] < |m|)
  {
    var m1 := if i == 0 then m else m[l[i - 1] := m[l[i - 1]].(nextPage := PagePtr(base, l, i + 1))];
    var m2 := if i + 1 == |l| then m1 else m1[l[i + 1] := m1[l[i + 1]].(prevPage := PagePtr(base, l, i - 1))];
    m2[l[i] := m2[l[i]].(prevPage := NULL_PAGE, nextPage := NULL_PAGE)]
  }

  lemma UnlinkPage(base: nat, m: Metas, l: seq<nat>, i: nat)
    requires ChainRep(base, m, l) && Distinct(l) && i < |l| && NodeRep(base, m, l, i)
    requires i > 0 ==> NodeRep(base, m, l, i - 1)
    requires i + 1 < |l| ==> NodeRep(base, m, l, i + 1)
    ensures ChainRep(base, Unlinked(base, m, l, i), Without(l, l[i]))
    ensures OnlyLinks(m, Unlinked(base, m, l, i), l)
    ensures PagePtr(base, Without(l, l[i]), 0) == if i == 0 then PagePtr(base, l, 1) else PagePtr(base, l, 0)
  {
    WithoutAt(l, i);
    var n, r := Unlinked(base, m, l, i), Without(l, l[i]);
    forall j | 0 <= j < |r| ensures NodeRep(base, n, r, j) {
      UnlinkNode(base, m, l, i, j);
    }
    UnlinkedOnlyLinks(base, m, l, i);
    hide Unlinked, NodeRep, ChainRep, OnlyLinks;
  }

  lemma UnlinkedOnlyLinks(base: nat, m: Metas, l: seq<nat>, i: nat)
    requires i < |l| && l[i] < |m| && (i > 0 ==> l[i - 1] < |m|) && (i + 1 < |l| ==> l[i + 1] < |m|)
    ensures OnlyLinks(m, Unlinked(base, m, l, i), l)
  {
    hide MetaPtr;
    assert i > 0 ==> l[i - 1] in l;
    assert i + 1 < |l| ==> l[i + 1] in l;
    assert l[i] in l;
  }

  lemma UnlinkNode(base: nat, m: Metas, l: seq<nat>, i: nat, j: nat)
    requires ChainRep(base, m, l) && Distinct(l) && i < |l| && NodeRep(base, m, l, i) && j + 1 < |l|
    requires i > 0 ==> NodeRep(base, m, l, i - 1)
    requires i + 1 < |l| ==> NodeRep(base, m, l, i + 1)
    ensures NodeRep(base, Unlinked(base, m, l, i), l[..i] + l[i + 1..], j)
  {
    hide MetaPtr;
    var jj := if j < i then j else j + 1;
    assert NodeRep(base, m, l, jj) && l[jj] != l[i];
    if jj != i - 1 && i > 0 { assert l[jj] != l[i - 1]; }
    if jj != i + 1 && i + 1 < |l| { assert l[jj] != l[i + 1]; }
  }

  // ---------------------------------------------------------------------------------------------
  // Taking and returning a slot

  /** Popping the first free slot: its u16 is the new head. */
  lemma PopSlot(words: Words, p: nat, page: Page)
    requires SlotsRep(words, p, page) && page.free != []
    ensures SlotWord(p, page.class_, page.free[0]) < |words|
    ensures var next := ReadU16(words[SlotWord(p, page.class_, page.free[0])]);
      next == HeadSlot(page.free[1..]) && (next == NULL_SLOT <==> |page.free| == 1)
    ensures SlotsRep(words, p, page.(free := page.free[1..]))
  {
    hide SlotWord, SlotsPerPage;
    var r := page.(free := page.free[1..]);
    assert LinkRep(words, p, page, 0);
    SlotIndexSmall(page, if |page.free| > 1 then 1 else 0);
    assert Distinct(r.free);
    assert forall i :: i in r.free ==> i in page.free;
    forall i | 0 <= i < |r.free| ensures LinkRep(words, p, r, i) {
      assert LinkRep(words, p, page, i + 1);
    }
  }

  lemma SlotIndexSmall(page: Page, i: nat)
    requires PageOk(page) && i < |page.free|
    ensures page.free[i] < SlotsPerPage(page.class_) <= 512
  {
    assert page.free[i] in page.free;
  }

  /** Pushing slot x: its u16 gets the old head, nothing else on the page's list changes. */
  lemma PushSlot(words: Words, p: nat, page: Page, x: nat, words': Words)
    requires SlotsRep(words, p, page) && x < SlotsPerPage(page.class_) && x !in page.free
    requires SlotWord(p, page.class_, x) < |words| && HeadSlot(page.free) < U16
    requires var w := SlotWord(p, page.class_, x); words' == words[w := WriteU16(words[w], HeadSlot(page.free))]
    ensures SlotsRep(words', p, page.(free := [x] + page.free))
  {
    var r := page.(free := [x] + page.free);
    forall i | 0 <= i < |r.free| ensures LinkRep(words', p, r, i) {
      if i == 0 {
        ReadWritten(words[SlotWord(p, page.class_, x)], HeadSlot(page.free));
      } else {
        assert LinkRep(words, p, page, i - 1) && page.free[i - 1] in page.free;
        SlotWordsDistinct(p, page.class_, x, p, page.class_, page.free[i - 1]);
      }
    }
  }

  /** A write to one slot's word leaves every other page's list alone. */
  lemma FrameSlots(words: Words, words': Words, p: nat, page: Page, lo: nat, hi: nat)
    requires SlotsRep(words, p, page) && |words'| == |words|
    requires forall w: nat :: w < |words| && !(lo <= w < hi) ==> words'[w] == words[w]
    requires hi <= PAGE_WORDS * p || PAGE_WORDS * (p + 1) <= lo
    ensures SlotsRep(words', p, page)
  {
    forall i | 0 <= i < |page.free| ensures LinkRep(words', p, page, i) {
      assert LinkRep(words, p, page, i);
      SlotIndexSmall(page, i);
      SlotInPage(p, page.class_, page.free[i]);
    }
  }

  // ---------------------------------------------------------------------------------------------
  // Steps of the representation as a whole

  lemma UnlinkLists(base: nat, m: Metas, heads: seq<nat>, partials: seq<seq<nat>>, k: nat, i: nat, heads': seq<nat>)
    requires ListsRep(base, m, heads, partials) && ListsDisjoint(partials) && k < NUM_SIZE_CLASSES && i < |partials[k]|
    requires NodeRep(base, m, partials[k], i)
    requires i > 0 ==> NodeRep(base, m, partials[k], i - 1)
    requires i + 1 < |partials[k]| ==> NodeRep(base, m, partials[k], i + 1)
    requires heads' == if i == 0 then heads[k := PagePtr(base, partials[k], 1)] else heads
    ensures var n := Unlinked(base, m, partials[k], i);
      && ListsRep(base, n, heads', partials[k := Without(partials[k], partials[k][i])])
      && OnlyLinks(m, n, partials[k])
  {
    hide MetaPtr;
    var l := partials[k];
    UnlinkPage(base, m, l, i);
    var n := Unlinked(base, m, l, i);
    forall j | 0 <= j < NUM_SIZE_CLASSES && j != k ensures ChainRep(base, n, partials[j]) {
      hide NodeRep, Unlinked;
      FrameChain(base, m, n, partials[j]);
    }
  }

  lemma PushLists(base: nat, m: Metas, heads: seq<nat>, partials: seq<seq<nat>>, k: nat, p: nat, n: Metas)
    requires ListsRep(base, m, heads, partials) && ListsDisjoint(partials) && k < NUM_SIZE_CLASSES && p < |m|
    requires forall j :: 0 <= j < NUM_SIZE_CLASSES ==> p !in partials[j]
    requires partials[k] != [] ==> NodeRep(base, m, partials[k], 0)
    requires var m1 := m[p := m[p].(prevPage := NULL_PAGE, nextPage := PagePtr(base, partials[k], 0))];
      n == if partials[k] == [] then m1
           else m1[partials[k][0] := m1[partials[k][0]].(prevPage := MetaPtr(base, p))]
    ensures ListsRep(base, n, heads[k := MetaPtr(base, p)], partials[k := [p] + partials[k]])
    ensures OnlyLinks(m, n, [p] + partials[k])
  {
    hide MetaPtr;
    var l := partials[k];
    PushPage(base, m, l, p, n);
    forall j | 0 <= j < NUM_SIZE_CLASSES && j != k ensures ChainRep(base, n, partials[j]) {
      hide NodeRep;
      FrameChain(base, m, n, partials[j]);
    }
  }

  /** Page links carry no slot data. */
  lemma LinksKeepPages(base: nat, m: Metas, n: Metas, words: Words, pages: map<nat, Page>, owner: nat, l: seq<nat>)
    requires PagesRep(base, m, words, pages, owner) && OnlyLinks(m, n, l)
    ensures PagesRep(base, n, words, pages, owner)
  {
    hide PageOk, SlotsPerPage, PageAddr;
    forall p | p in pages ensures MetaRep(base, n[p], p, pages[p], owner) {
      assert MetaRep(base, m[p], p, pages[p], owner);
    }
  }

  /** The record of page p after a slot was taken or returned. */
  function Recorded(m: Metas, p: nat, head: nat, used: nat): Metas
    requires p < |m|
  {
    m[p := m[p].(freeListHead := head, usedSlots := used)]
  }

  lemma RecordKeepsLists(base: nat, m: Metas, heads: seq<nat>, partials: seq<seq<nat>>, p: nat, head: nat, used: nat)
    requires ListsRep(base, m, heads, partials) && p < |m|
    ensures ListsRep(base, Recorded(m, p, head, used), heads, partials)
  {
    var n := Recorded(m, p, head, used);
    forall k | 0 <= k < NUM_SIZE_CLASSES ensures ChainRep(base, n, partials[k]) {
      FrameChain(base, m, n, partials[k]);
    }
  }

  lemma PopPages(base: nat, m: Metas, words: Words, pages: map<nat, Page>, owner: nat, p: nat)
    requires PagesRep(base, m, words, pages, owner) && p in pages && pages[p].free != []
    ensures p < |m|
    ensures var page := pages[p].(free := pages[p].free[1..]);
      PagesRep(base, Recorded(m, p, HeadSlot(page.free), m[p].usedSlots + 1), words, pages[p := page], owner)
  {
    hide SlotsPerPage, PageAddr, SlotWord, LinkRep;
    PopSlot(words, p, pages[p]);
    var page := pages[p].(free := pages[p].free[1..]);
    var n := Recorded(m, p, HeadSlot(page.free), m[p].usedSlots + 1);
    forall q | q in pages ensures MetaRep(base, n[q], q, pages[p := page][q], owner) {
      assert MetaRep(base, m[q], q, pages[q], owner);
    }
  }

  lemma PushPages(base: nat, m: Metas, words: Words, pages: map<nat, Page>, owner: nat, p: nat, x: nat, words': Words)
    requires PagesRep(base, m, words, pages, owner) && p in pages && pages[p].class_ < NUM_SIZE_CLASSES
    requires x < SlotsPerPage(pages[p].class_) && x !in pages[p].free
    requires SlotWord(p, pages[p].class_, x) < |words| && HeadSlot(pages[p].free) < U16
    requires var w := SlotWord(p, pages[p].class_, x); words' == words[w := WriteU16(words[w], HeadSlot(pages[p].free))]
    ensures p < |m| && m[p].usedSlots > 0
    ensures var page := pages[p].(free := [x] + pages[p].free);
      PagesRep(base, Recorded(m, p, x, m[p].usedSlots - 1), words', pages[p := page], owner)
  {
    var page := pages[p].(free := [x] + pages[p].free);
    FreeIsFewer(pages[p], x);
    assert MetaRep(base, m[p], p, pages[p], owner);
    var n := Recorded(m, p, x, m[p].usedSlots - 1);
    PushSlot(words, p, pages[p], x, words');
    hide SlotsPerPage, PageAddr, LinkRep;
    forall q | q in pages && q != p ensures SlotsRep(words', q, pages[q]) {
      SlotInPage(p, pages[p].class_, x);
      FrameSlots(words, words', q, pages[q], PAGE_WORDS * p, PAGE_WORDS * (p + 1));
    }
    forall q | q in pages ensures MetaRep(base, n[q], q, pages[p := page][q], owner) {
      assert MetaRep(base, m[q], q, pages[q], owner);
    }
  }

  /** A page with a used slot has fewer free slots than slots. */
  lemma FreeIsFewer(page: Page, x: nat)
    requires PageOk(page) && x < SlotsPerPage(page.class_) && x !in page.free
    ensures |page.free| < SlotsPerPage(page.class_)
  {
    var all := Upto(SlotsPerPage(page.class_));
    SizeOfElems(page.free);
    SizeOfElems(all);
    assert all[x] == x;
    forall i | i in Elems(page.free) ensures i in Elems(all) - {x} {
      assert all[i] == i;
    }
    SubsetSize(Elems(page.free), Elems(all) - {x});
  }

  lemma {:induction false} SizeOfElems(s: seq<nat>)
    requires Distinct(s)
    ensures |Elems(s)| == |s|
  {
    if s == [] {
      assert Elems(s) == {};
    } else {
      assert s == [s[0]] + s[1..] && s[0] !in s[1..];
      SizeOfElems(s[1..]);
      assert Elems(s) == {s[0]} + Elems(s[1..]);
    }
  }

  lemma {:induction false} SubsetSize(a: set<nat>, b: set<nat>)
    requires a <= b
    ensures |a| <= |b|
  {
    if a != {} {
      var x :| x in a;
      SubsetSize(a - {x}, b - {x});
    }
  }

  lemma PageInChain(base: nat, m: Metas, heads: seq<nat>, s: Slab, k: nat, i: nat)
    requires WellFormed(s) && ListsRep(base, m, heads, s.partials) && k < NUM_SIZE_CLASSES && i < |s.partials[k]|
    ensures NodeRep(base, m, s.partials[k], i)
    ensures i > 0 ==> NodeRep(base, m, s.partials[k], i - 1)
    ensures i + 1 < |s.partials[k]| ==> NodeRep(base, m, s.partials[k], i + 1)
    ensures s.partials[k][i] in s.pages && s.pages[s.partials[k][i]].class_ == k && s.pages[s.partials[k][i]].free != []
  {
    assert ChainRep(base, m, s.partials[k]);
    ClassOfListed(s, k, s.partials[k][i]);
  }

  /** The records after a pop: page p's head and count, and the page unlinked if it became full. */
  function Popped(base: nat, m: Metas, l: seq<nat>, next: nat): Metas
    requires l != [] && l[0] < |m| && (|l| > 1 ==> l[1] < |m|)
  {
    var m1 := Recorded(m, l[0], next, m[l[0]].usedSlots + 1);
    if next == NULL_SLOT then Unlinked(base, m1, l, 0) else m1
  }

  /** What alloc reads: the first partial page's record, and the u16 in its first free slot. */
  ghost predicate PopReads(base: nat, m: Metas, words: Words, s: Slab, owner: nat, k: nat, next: nat)
    requires HasPartial(s, k)
  {
    var l: seq<nat> := s.partials[k];
    var p := l[0];
    && k < NUM_SIZE_CLASSES
    && p < |m| && (|l| > 1 ==> l[1] < |m|)
    && s.pages[p].class_ == k && MetaRep(base, m[p], p, s.pages[p], owner)
    && s.pages[p].free[0] < SlotsPerPage(k) && SlotWord(p, k, s.pages[p].free[0]) < |words|
    && next == ReadU16(words[SlotWord(p, k, s.pages[p].free[0])]) == HeadSlot(s.pages[p].free[1..])
    && (next == NULL_SLOT <==> |s.pages[p].free| == 1)
  }

  lemma PopReading(base: nat, m: Metas, words: Words, heads: seq<nat>, s: Slab, owner: nat, k: nat) returns (next: nat)
    requires Rep(base, m, words, heads, s, owner) && HasPartial(s, k)
    ensures PopReads(base, m, words, s, owner, k, next)
    ensures heads[k] == MetaPtr(base, s.partials[k][0])
  {
    hide SlotsPerPage, SlotWord, MetaPtr, PageAddr, LinkRep, PageOk, NodeRep, ChainRep;
    var l, p := s.partials[k], s.partials[k][0];
    PageInChain(base, m, heads, s, k, 0);
    NodeBounds(base, m, l);
    PopSlot(words, p, s.pages[p]);
    SlotIndexSmall(s.pages[p], 0);
    next := HeadSlot(s.pages[p].free[1..]);
  }

  /** Where the popped slot is. */
  lemma TakenSlot(base: nat, m: Metas, words: Words, s: Slab, owner: nat, k: nat, next: nat)
    requires HasPartial(s, k) && PopReads(base, m, words, s, owner, k, next)
    ensures var (p, i, r) := Pop(s, k);
      && p < |m| && k < NUM_SIZE_CLASSES && m[p].freeListHead == i && m[p].pageAddr == PageAddr(base, p)
      && var a := PageAddr(base, p) + i * ClassToSize(k);
      && a == SlotAddr(base, p, k, i) && a >= base && WordIndex(base, a) < |words|
      && ReadU16(words[WordIndex(base, a)]) == next
  {
    var (p, i, r) := Pop(s, k);
    SlotRoundTrip(base, p, k, i);
  }

  lemma PopRep(base: nat, m: Metas, words: Words, heads: seq<nat>, s: Slab, owner: nat, k: nat, next: nat)
    requires Rep(base, m, words, heads, s, owner) && HasPartial(s, k) && PopReads(base, m, words, s, owner, k, next)
    ensures var l: seq<nat> := s.partials[k];
      var n := Popped(base, m, l, next);
      && Rep(base, n, words, if next == NULL_SLOT then heads[k := PagePtr(base, l, 1)] else heads, Pop(s, k).2, owner)
      && (forall q: nat :: q < |m| && q !in s.pages ==> n[q] == m[q])
  {
    hide SlotsPerPage, SlotWord, MetaPtr, PageAddr, Unlinked, LinkRep, PageOk, NodeRep, ChainRep, MetaRep, ReadU16, WellFormed;
    var l, p := s.partials[k], s.partials[k][0];
    PopPages(base, m, words, s.pages, owner, p);
    PopKeepsWellFormed(s, k);
    var m1 := Recorded(m, p, next, m[p].usedSlots + 1);
    RecordKeepsLists(base, m, heads, s.partials, p, next, m[p].usedSlots + 1);
    if next == NULL_SLOT {
      PopFullRep(base, m1, words, heads, s, owner, k, l, Pop(s, k).2);
    }
  }

  lemma NodeBounds(base: nat, m: Metas, l: seq<nat>)
    requires ChainRep(base, m, l)
    ensures forall i :: 0 <= i < |l| ==> l[i] < |m|
  {
    forall i | 0 <= i < |l| ensures l[i] < |m| { assert NodeRep(base, m, l, i); }
  }

  /** Pages that became full have null links, and the links of other owners' pages did not change. */
  lemma PopFullDetached(base: nat, m: Metas, s: Slab, k: nat, n: Metas)
    requires WellFormed(s) && HasPartial(s, k) && k < NUM_SIZE_CLASSES && FullDetached(m, s.pages)
    requires s.partials[k][0] < |m| && (|s.partials[k]| > 1 ==> s.partials[k][1] < |m|)
    requires n == Unlinked(base, m, s.partials[k], 0) && OnlyLinks(m, n, s.partials[k])
    ensures FullDetached(n, Pop(s, k).2.pages)
    ensures forall q: nat :: q < |m| && q !in s.pages ==> n[q] == m[q]
  {
    hide SlotsPerPage, MetaPtr, PageOk, WellFormed;
    forall q | q in s.partials[k] ensures q in s.pages && s.pages[q].free != [] { ClassOfListed(s, k, q); }
  }

  /** The page became full: it leaves its list l, and the slab is r. */
  lemma PopFullRep(base: nat, m: Metas, words: Words, heads: seq<nat>, s: Slab, owner: nat, k: nat,
                   l: seq<nat>, r: Slab)
    requires WellFormed(s) && HasPartial(s, k) && k < NUM_SIZE_CLASSES && l == s.partials[k] && r == Pop(s, k).2
    requires |s.pages[l[0]].free| == 1 && l[0] < |m| && (|l| > 1 ==> l[1] < |m|)
    requires PagesRep(base, m, words, r.pages, owner) && ListsRep(base, m, heads, s.partials)
    requires FullDetached(m, s.pages)
    ensures Rep(base, Unlinked(base, m, l, 0), words, heads[k := PagePtr(base, l, 1)], r, owner)
    ensures forall q: nat :: q < |m| && q !in s.pages ==> Unlinked(base, m, l, 0)[q] == m[q]
  {
    hide SlotsPerPage, SlotWord, MetaPtr, PageAddr, LinkRep, PageOk, ChainRep, NodeRep, MetaRep, SlotsRep, WellFormed;
    NodeBounds(base, m, l);
    PageInChain(base, m, heads, s, k, 0);
    WellFormedDisjoint(s);
    UnlinkLists(base, m, heads, s.partials, k, 0, heads[k := PagePtr(base, l, 1)]);
    WithoutAt(l, 0);
    assert Without(l, l[0]) == l[1..];
    var n := Unlinked(base, m, l, 0);
    LinksKeepPages(base, m, n, words, r.pages, owner, l);
    PopKeepsWellFormed(s, k);
    PopFullDetached(base, m, s, k, n);
    hide Unlinked, FullDetached, OnlyLinks, PagesRep;
  }

  /** The records after a push: page p's head and count, and the page in front if it was full. */
  function Pushed(base: nat, m: Metas, l: seq<nat>, p: nat, i: nat): Metas
    requires p < |m| && m[p].usedSlots > 0 && (l != [] ==> l[0] < |m|)
  {
    var m1 := Recorded(m, p, i, m[p].usedSlots - 1);
    if m[p].freeListHead == NULL_SLOT then Linked(base, m1, l, p) else m1
  }

  function Linked(base: nat, m: Metas, l: seq<nat>, p: nat): Metas
    requires p < |m| && (l != [] ==> l[0] < |m|)
  {
    var m1 := m[p := m[p].(prevPage := NULL_PAGE, nextPage := PagePtr(base, l, 0))];
    if l == [] then m1 else m1[l[0] := m1[l[0]].(prevPage := MetaPtr(base, p))]
  }

  lemma HeadIsSmall(page: Page)
    requires PageOk(page)
    ensures HeadSlot(page.free) < U16 && (HeadSlot(page.free) == NULL_SLOT <==> page.free == [])
  {
    if page.free != [] { SlotIndexSmall(page, 0); }
  }

  /** What free reads: page p's record. */
  ghost predicate PushReads(base: nat, m: Metas, words: Words, s: Slab, owner: nat, p: nat, i: nat)
    requires IsUsedSlot(s, p, i)
  {
    var page := s.pages[p];
    && page.class_ < |s.partials|
    && p < |m| && MetaRep(base, m[p], p, page, owner) && m[p].usedSlots > 0
    && (m[p].freeListHead == NULL_SLOT <==> page.free == []) && m[p].freeListHead == HeadSlot(page.free) < U16
    && (s.partials[page.class_] != [] ==> s.partials[page.class_][0] < |m|)
    && SlotWord(p, page.class_, i) < |words|
  }

  lemma PushReading(base: nat, m: Metas, words: Words, heads: seq<nat>, s: Slab, owner: nat, p: nat, i: nat)
    requires Rep(base, m, words, heads, s, owner) && IsUsedSlot(s, p, i)
    ensures PushReads(base, m, words, s, owner, p, i)
  {
    hide SlotsPerPage, SlotWord, MetaPtr, PageAddr, LinkRep, PageOk, NodeRep, ChainRep;
    HeadIsSmall(s.pages[p]);
    SlotInArena(p, s.pages[p].class_, i);
    FreeIsFewer(s.pages[p], i);
    FirstNode(base, m, heads, s.partials, s.pages[p].class_);
  }

  lemma PushRep(base: nat, m: Metas, words: Words, heads: seq<nat>, s: Slab, owner: nat, p: nat, i: nat)
    requires Rep(base, m, words, heads, s, owner) && IsUsedSlot(s, p, i) && PushReads(base, m, words, s, owner, p, i)
    ensures var page, w := s.pages[p], SlotWord(p, s.pages[p].class_, i);
      var words' := words[w := WriteU16(words[w], m[p].freeListHead)];
      var n := Pushed(base, m, s.partials[page.class_], p, i);
      && page.class_ < |heads|
      && Rep(base, n, words', if page.free == [] then heads[page.class_ := MetaPtr(base, p)] else heads,
             Push(s, p, i), owner)
      && (forall q: nat :: q < |m| && q !in s.pages ==> n[q] == m[q])
  {
    hide SlotsPerPage, SlotWord, MetaPtr, PageAddr, LinkRep, PageOk, NodeRep, ChainRep, MetaRep, WriteU16, WellFormed;
    var page, w := s.pages[p], SlotWord(p, s.pages[p].class_, i);
    var words' := words[w := WriteU16(words[w], HeadSlot(page.free))];
    PushPages(base, m, words, s.pages, owner, p, i, words');
    PushKeepsWellFormed(s, p, i);
    WellFormedDisjoint(s);
    RecordKeepsLists(base, m, heads, s.partials, p, i, m[p].usedSlots - 1);
    if page.free == [] {
      FullOnNoList(s, p);
      LinkRepAll(base, Recorded(m, p, i, m[p].usedSlots - 1), words', heads, s, owner, p, Push(s, p, i));
    }
  }

  lemma FullOnNoList(s: Slab, p: nat)
    requires WellFormed(s) && p in s.pages && s.pages[p].free == []
    ensures forall j :: 0 <= j < NUM_SIZE_CLASSES ==> p !in s.partials[j]
  {
  }

  lemma SlotInArena(p: nat, class_: nat, i: nat)
    requires class_ < NUM_SIZE_CLASSES && i < SlotsPerPage(class_) && p < PAGES_PER_ARENA
    ensures SlotWord(p, class_, i) < ARENA_WORDS
  {
    SlotInPage(p, class_, i);
  }

  /** A page that has a free slot and was on no list goes to the front of its list. */
  lemma LinkRepAll(base: nat, m: Metas, words: Words, heads: seq<nat>, s: Slab, owner: nat, p: nat, r: Slab)
    requires |s.partials| == NUM_SIZE_CLASSES && ListsDisjoint(s.partials) && ListsRep(base, m, heads, s.partials)
    requires WellFormed(r) && p in r.pages && r.pages[p].free != []
    requires forall j :: 0 <= j < NUM_SIZE_CLASSES ==> p !in s.partials[j]
    requires r.pages[p].class_ < NUM_SIZE_CLASSES
    requires r.partials == s.partials[r.pages[p].class_ := [p] + s.partials[r.pages[p].class_]]
    requires PagesRep(base, m, words, r.pages, owner)
    requires FullDetached(m, r.pages)
    ensures var k := r.pages[p].class_;
      && p < |m| && (s.partials[k] != [] ==> s.partials[k][0] < |m|)
      && var n := Linked(base, m, s.partials[k], p);
      && Rep(base, n, words, heads[k := MetaPtr(base, p)], r, owner)
      && (forall q: nat :: q < |m| && q !in r.pages ==> n[q] == m[q])
  {
    hide SlotsPerPage, SlotWord, MetaPtr, PageAddr, LinkRep, PageOk, NodeRep, ChainRep;
    var k := r.pages[p].class_;
    var l := s.partials[k];
    FirstNode(base, m, heads, s.partials, k);
    var n := Linked(base, m, l, p);
    PushLists(base, m, heads, s.partials, k, p, n);
    LinksKeepPages(base, m, n, words, r.pages, owner, [p] + l);
    forall q | q in [p] + l ensures q in r.pages && r.pages[q].free != [] {
      assert q in r.partials[k];
      ClassOfListed(r, k, q);
    }
    assert FullDetached(n, r.pages);
  }

  lemma FirstNode(base: nat, m: Metas, heads: seq<nat>, partials: seq<seq<nat>>, k: nat)
    requires ListsRep(base, m, heads, partials) && k < NUM_SIZE_CLASSES
    ensures partials[k] != [] ==> partials[k][0] < |m| && NodeRep(base, m, partials[k], 0)
  {
    assert ChainRep(base, m, partials[k]);
    if partials[k] != [] { assert NodeRep(base, m, partials[k], 0); }
  }

  // ---------------------------------------------------------------------------------------------
  // A fresh page

  function FreshMeta(base: nat, p: nat, class_: nat, owner: nat): PageMeta {
    PageMeta(class_, owner, 0, 0, NULL_PAGE, NULL_PAGE, PageAddr(base, p))
  }

  /** init_page: a page whose slots are all free, in order, and whose record says so. */
  lemma FreshPages(base: nat, m: Metas, words: Words, pages: map<nat, Page>, owner: nat, p: nat, class_: nat, words': Words)
    requires PagesRep(base, m, words, pages, owner) && p !in pages && META_PAGES <= p < PAGES_PER_ARENA
    requires class_ < NUM_SIZE_CLASSES && |words'| == |words|
    requires SlotsRep(words', p, Page(class_, Upto(SlotsPerPage(class_))))
    requires forall w: nat :: w < |words| && !(PAGE_WORDS * p <= w < PAGE_WORDS * (p + 1)) ==> words'[w] == words[w]
    ensures PagesRep(base, m[p := FreshMeta(base, p, class_, owner)], words',
                     pages[p := Page(class_, Upto(SlotsPerPage(class_)))], owner)
  {
    hide SlotsPerPage, PageAddr, LinkRep, PageOk, SlotsRep;
    var page := Page(class_, Upto(SlotsPerPage(class_)));
    var n := m[p := FreshMeta(base, p, class_, owner)];
    FreshPageOk(words', p, page);
    forall q | q in pages ensures SlotsRep(words', q, pages[q]) {
      FrameSlots(words, words', q, pages[q], PAGE_WORDS * p, PAGE_WORDS * (p + 1));
    }
    forall q | q in pages[p := page] ensures MetaRep(base, n[q], q, pages[p := page][q], owner) {
      assert q != p ==> MetaRep(base, m[q], q, pages[q], owner);
    }
  }

  lemma FreshPageOk(words: Words, p: nat, page: Page)
    requires SlotsRep(words, p, page)
    ensures PageOk(page)
  {
  }

  lemma FreshRep(base: nat, m: Metas, words: Words, heads: seq<nat>, s: Slab, owner: nat, p: nat, class_: nat, words': Words)
    requires Rep(base, m, words, heads, s, owner) && p !in s.pages && META_PAGES <= p < PAGES_PER_ARENA
    requires class_ < NUM_SIZE_CLASSES && s.partials[class_] == [] && |words'| == |words|
    requires SlotsRep(words', p, Page(class_, Upto(SlotsPerPage(class_))))
    requires forall w: nat :: w < |words| && !(PAGE_WORDS * p <= w < PAGE_WORDS * (p + 1)) ==> words'[w] == words[w]
    ensures var n := m[p := FreshMeta(base, p, class_, owner)];
      && Linked(base, n, [], p) == n
      && Rep(base, n, words', heads[class_ := MetaPtr(base, p)], AddPage(s, p, class_), owner)
  {
    hide SlotsPerPage, SlotWord, MetaPtr, PageAddr, LinkRep, PageOk, NodeRep, ChainRep, SlotsRep, MetaRep;
    var n := m[p := FreshMeta(base, p, class_, owner)];
    AddPageKeepsWellFormed(s, p, class_);
    FreshPages(base, m, words, s.pages, owner, p, class_, words');
    WellFormedDisjoint(s);
    forall j | 0 <= j < NUM_SIZE_CLASSES ensures p !in s.partials[j] && ChainRep(base, n, s.partials[j]) {
      ListedAreOwned(s, j, p);
      FrameChain(base, m, n, s.partials[j]);
    }
    LinkRepAll(base, n, words', heads, s, owner, p, AddPage(s, p, class_));
  }

  lemma ListedAreOwned(s: Slab, k: nat, p: nat)
    requires WellFormed(s) && k < NUM_SIZE_CLASSES
    ensures p in s.partials[k] ==> p in s.pages
  {
  }

  /** What one owner does to its own pages leaves every other owner's slab as it was. */
  lemma OtherSlabUnaffected(base: nat, m: Metas, words: Words, heads: seq<nat>, s: Slab, owner: nat,
                            n: Metas, words': Words, mine: set<nat>)
    requires Rep(base, m, words, heads, s, owner) && |n| == |m| && |words'| == |words|
    requires mine !! s.pages.Keys
    requires forall q: nat :: q < |m| && q !in mine ==> n[q] == m[q]
    requires forall w: nat :: w < |words| && w / PAGE_WORDS !in mine ==> words'[w] == words[w]
    ensures Rep(base, n, words', heads, s, owner)
  {
    hide SlotsPerPage, MetaPtr, PageAddr, NodeRep, MetaRep, SlotWord;
    forall q | q in s.pages ensures SlotsRep(words', q, s.pages[q]) && n[q] == m[q] {
      assert MetaRep(base, m[q], q, s.pages[q], owner);
      forall i | 0 <= i < |s.pages[q].free| ensures LinkRep(words', q, s.pages[q], i) {
        assert LinkRep(words, q, s.pages[q], i);
        WordOfPage(q, s.pages[q], i);
      }
    }
    forall k | 0 <= k < NUM_SIZE_CLASSES ensures ChainRep(base, n, s.partials[k]) {
      forall p | p in s.partials[k] ensures p in s.pages { ListedAreOwned(s, k, p); }
      FrameChain(base, m, n, s.partials[k]);
    }
  }

  /** Whatever is written into a slot in use, by its caller or by a thread that pushes it on a stack,
      the owner's records, lists and embedded links are as they were. */
  lemma UsedSlotWrites(base: nat, m: Metas, words: Words, heads: seq<nat>, s: Slab, owner: nat,
                       p: nat, i: nat, w: nat, words': Words)
    requires Rep(base, m, words, heads, s, owner) && IsUsedSlot(s, p, i) && InSlot(p, s.pages[p].class_, i, w)
    requires |words'| == |words| && forall u: nat :: u < |words| && u != w ==> words'[u] == words[u]
    ensures w / PAGE_WORDS == p && Rep(base, m, words', heads, s, owner)
  {
    hide SlotsPerPage, ListsRep, WellFormed, MetaRep, SlotWord, FullDetached, InSlot;
    SlotDataApart(p, s.pages[p].class_, i, w, i);
    forall q | q in s.pages ensures SlotsRep(words', q, s.pages[q]) {
      forall n | 0 <= n < |s.pages[q].free| ensures LinkRep(words', q, s.pages[q], n) {
        assert LinkRep(words, q, s.pages[q], n);
        WordOfPage(q, s.pages[q], n);
        assert s.pages[q].free[n] in s.pages[q].free;
        SlotDataApart(p, s.pages[p].class_, i, w, s.pages[q].free[n]);
      }
    }
  }

  lemma WordOfPage(q: nat, page: Page, i: nat)
    requires PageOk(page) && i < |page.free|
    ensures SlotWord(q, page.class_, page.free[i]) / PAGE_WORDS == q
  {
    SlotIndexSmall(page, i);
    SlotInPage(q, page.class_, page.free[i]);
  }

  // ---------------------------------------------------------------------------------------------
  // The abstract slab determines the records

  lemma ReWritten(w: nat)
    ensures ReadU16(w) < U16 && WriteU16(w, ReadU16(w)) == w
  {
  }

  /** Two layouts of one slab have the same list heads, the same records of its pages and the same
      slot links. */
  lemma RepDetermined(base: nat, m: Metas, words: Words, heads: seq<nat>, n: Metas, words': Words, heads': seq<nat>,
                      s: Slab, owner: nat)
    requires Rep(base, m, words, heads, s, owner) && Rep(base, n, words', heads', s, owner)
    ensures heads == heads' && |m| == |n|
    ensures forall p :: p in s.pages && p < |m| ==> m[p] == n[p]
  {
    hide SlotsPerPage, MetaPtr, PageAddr, LinkRep, PageOk, SlotWord;
    forall p | p in s.pages && p < |m| ensures m[p] == n[p] {
      assert MetaRep(base, m[p], p, s.pages[p], owner) && MetaRep(base, n[p], p, s.pages[p], owner);
      if s.pages[p].free != [] {
        var k := s.pages[p].class_;
        ClassBelow(s, p);
        var i :| 0 <= i < |s.partials[k]| && s.partials[k][i] == p;
        assert ChainRep(base, m, s.partials[k]) && ChainRep(base, n, s.partials[k]);
        assert NodeRep(base, m, s.partials[k], i) && NodeRep(base, n, s.partials[k], i);
      }
    }
  }

  /** Two ways from the records m to one slab, both touching only records of its pages, end alike. */
  lemma OneResult(base: nat, m: Metas, s: Slab, owner: nat, m1: Metas, words1: Words, heads1: seq<nat>,
                  m2: Metas, words2: Words, heads2: seq<nat>)
    requires Rep(base, m1, words1, heads1, s, owner) && Rep(base, m2, words2, heads2, s, owner)
    requires |m| == |m1| == |m2|
    requires forall p :: 0 <= p < |m| && p !in s.pages ==> m1[p] == m[p] && m2[p] == m[p]
    ensures m1 == m2 && heads1 == heads2
  {
    hide Rep;
    RepDetermined(base, m1, words1, heads1, m2, words2, heads2, s, owner);
    assert forall p :: 0 <= p < |m| ==> m1[p] == m2[p];
  }

  lemma ClassBelow(s: Slab, p: nat)
    requires WellFormed(s) && p in s.pages
    ensures s.pages[p].class_ < NUM_SIZE_CLASSES
  {
    assert PageOk(s.pages[p]);
  }
}
