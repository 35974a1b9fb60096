/** A thread's cache, seen by its owner: draining the stack of slots other threads have freed. */
module ThreadCache {
  import opened Lists
  import opened SizeClass
  import opened AbstractSlab
  import opened ArenaLayout
  import opened SlabMemory
  import opened SlabAllocator
  import Arena

  const NULL: nat := 0

  /** Following `next` from `head` through the first word of each node visits `nodes` and ends at null. */
  ghost predicate Chained(base: nat, words: Words, s: Slab, nodes: seq<Slot>, head: nat)
    requires AllUsed(s, nodes)
    decreases |nodes|
  {
    if nodes == [] then head == NULL
    else
      var n := nodes[0];
      assert n in nodes;
      && IsSlotAt(s, base, n.page, n.idx, head)
      && META_PAGES <= n.page < PAGES_PER_ARENA
      && WordOf(s, n.page, n.idx) < |words|
      && Chained(base, words, s, nodes[1..], words[WordOf(s, n.page, n.idx)])
  }

  /** A free of another slot leaves the rest of the chain as it was. */
  lemma {:induction false} ChainSurvives(base: nat, words: Words, s: Slab, nodes: seq<Slot>, head: nat, p: nat, i: nat,
                                         words': Words, r: Slab)
    requires AllUsed(s, nodes) && Chained(base, words, s, nodes, head) && IsUsedSlot(s, p, i)
    requires Slot(p, i) !in nodes && |words'| == |words|
    requires forall w: nat :: w < |words| && w != WordOf(s, p, i) ==> words'[w] == words[w]
    requires AllUsed(r, nodes) && r.pages.Keys == s.pages.Keys
    requires forall q :: q in s.pages ==> r.pages[q].class_ == s.pages[q].class_
    ensures Chained(base, words', r, nodes, head)
    decreases |nodes|
  {
    hide SlotsPerPage, SlotWord, SlotAddr;
    if nodes != [] {
      var n := nodes[0];
      assert n in nodes && n != Slot(p, i);
      assert IsUsedSlot(s, n.page, n.idx) && IsUsedSlot(r, n.page, n.idx);
      SlotWordsDistinct(n.page, s.pages[n.page].class_, n.idx, p, s.pages[p].class_, i);
      ChainSurvives(base, words, s, nodes[1..], words[WordOf(s, n.page, n.idx)], p, i, words', r);
    }
  }

  class Cache {
    const id: nat
    const slab: Slabs
    /** Head of the stack of remotely freed slots. */
    var remoteFrees: nat

    constructor (id: nat)
      ensures this.id == id && remoteFrees == NULL && fresh(slab) && fresh(slab.partialPages)
      ensures slab.slab == Slab(map[], seq(NUM_SIZE_CLASSES, _ => []))
    {
      this.id := id;
      slab := new Slabs();
      remoteFrees := NULL;
    }

    ghost predicate Valid(arena: Arena.Arena)
      reads this, slab, slab.partialPages, arena, arena.metas, arena.words
    {
      slab.Valid(arena, id)
    }

    /** The whole stack is taken at once, then freed node by node; each free overwrites the bytes that
        held the node's `next`, which has been read by then. */
    method DrainRemoteFrees(arena: Arena.Arena, ghost nodes: seq<Slot>)
      requires Valid(arena) && WellFormed(slab.slab) && AllUsed(slab.slab, nodes) && DistinctSlots(nodes)
      requires Chained(arena.base, arena.words[..], slab.slab, nodes, remoteFrees)
      modifies this`remoteFrees, slab, slab.partialPages, arena.metas, arena.words
      ensures Valid(arena) && remoteFrees == NULL
      ensures slab.slab == FreeInOrder(old(slab.slab), nodes)
      ensures slab.slab.pages.Keys == old(slab.slab).pages.Keys
      ensures forall p :: 0 <= p < PAGES_PER_ARENA && p !in slab.slab.pages ==> arena.metas[p] == old(arena.metas[p])
      ensures forall w :: 0 <= w < ARENA_WORDS && w / PAGE_WORDS !in slab.slab.pages ==>
                arena.words[w] == old(arena.words[w])
    {
      hide Rep, Relinked, SlotsPerPage, SlotWord, SlotAddr, PtrToPageIndex, WellFormed, AllUsed, DistinctSlots;
      var head := remoteFrees;
      remoteFrees := NULL;
      ghost var rest, s0 := nodes, slab.slab;
      while head != NULL
        invariant slab.Valid(arena, id) && WellFormed(slab.slab) && AllUsed(slab.slab, rest) && DistinctSlots(rest)
        invariant Chained(arena.base, arena.words[..], slab.slab, rest, head)
        invariant FreeInOrder(slab.slab, rest) == FreeInOrder(s0, nodes)
        invariant remoteFrees == NULL && slab.slab.pages.Keys == s0.pages.Keys
        invariant forall p :: 0 <= p < PAGES_PER_ARENA && p !in s0.pages.Keys ==> arena.metas[p] == old(arena.metas[p])
        invariant forall w :: 0 <= w < ARENA_WORDS && w / PAGE_WORDS !in s0.pages.Keys ==>
                    arena.words[w] == old(arena.words[w])
        decreases |rest|
      {
        ghost var n, s, words := rest[0], slab.slab, arena.words[..];
        NodeFacts(arena.base, words, s, rest, head);
        FreeFirst(s, rest);
        slab.OwnedPage(arena, id, n.page, n.idx);
        var next := arena.words[WordIndex(arena.base, head)];
        slab.Free(head, arena, id, n.idx);
        RelinkedFrame(s, n.page, n.idx, words);
        NotInTail(rest);
        PushClasses(s, n.page, n.idx);
        ChainSurvives(arena.base, words, s, rest[1..], next, n.page, n.idx, arena.words[..], slab.slab);
        head := next;
        rest := rest[1..];
      }
      NullEnds(arena.base, arena.words[..], slab.slab, rest, head);
    }
  }

  lemma NodeFacts(base: nat, words: Words, s: Slab, nodes: seq<Slot>, head: nat)
    requires AllUsed(s, nodes) && nodes != [] && Chained(base, words, s, nodes, head)
    ensures var n := nodes[0];
      && IsSlotAt(s, base, n.page, n.idx, head) && head >= base && WordIndex(base, head) < |words|
      && WordIndex(base, head) == WordOf(s, n.page, n.idx) && PtrToPageIndex(base, head) == n.page > 0
      && AllUsed(s, nodes[1..]) && Chained(base, words, s, nodes[1..], words[WordIndex(base, head)])
  {
    SlotRoundTrip(base, nodes[0].page, s.pages[nodes[0].page].class_, nodes[0].idx);
  }

  /** Slots are at positive addresses, so a chain whose head is null is empty. */
  lemma NullEnds(base: nat, words: Words, s: Slab, nodes: seq<Slot>, head: nat)
    requires base > 0 && AllUsed(s, nodes) && Chained(base, words, s, nodes, head) && head == NULL
    ensures nodes == []
  {
  }

  lemma NotInTail(nodes: seq<Slot>)
    requires DistinctSlots(nodes) && nodes != []
    ensures Slot(nodes[0].page, nodes[0].idx) !in nodes[1..]
  {
  }

  lemma PushClasses(s: Slab, p: nat, i: nat)
    requires WellFormed(s) && IsUsedSlot(s, p, i)
    ensures s.pages[p].class_ < |s.partials| && s.pages[p].class_ != NO_CLASS
    ensures var r := Push(s, p, i);
      r.pages.Keys == s.pages.Keys && forall q :: q in s.pages ==> r.pages[q].class_ == s.pages[q].class_
  {
  }
}
