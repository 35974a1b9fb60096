/** The abstract slab: the pages a thread owns, each with its free slots in order, and for every size
    class the pages that still have a free slot, in order. */
module AbstractSlab {
  import opened Lists
  import opened SizeClass

  datatype Page = Page(class_: nat, free: seq<nat>)

  datatype Slab = Slab(pages: map<nat, Page>, partials: seq<seq<nat>>)

  /** A slot: its page and its index on the page. */
  datatype Slot = Slot(page: nat, idx: nat)

  ghost predicate DistinctSlots(nodes: seq<Slot>) {
    forall i, j :: 0 <= i < j < |nodes| ==> nodes[i] != nodes[j]
  }

  ghost predicate PageOk(page: Page) {
    && page.class_ < NUM_SIZE_CLASSES
    && Distinct(page.free)
    && forall i :: i in page.free ==> i < SlotsPerPage(page.class_)
  }

  /** Pages are sound, and a page is on its class's list, exactly once, iff it has a free slot. */
  ghost predicate WellFormed(s: Slab) {
    && |s.partials| == NUM_SIZE_CLASSES
    && (forall p :: p in s.pages ==> PageOk(s.pages[p]))
    && (forall k :: 0 <= k < NUM_SIZE_CLASSES ==> Distinct(s.partials[k]))
    && (forall k, p :: 0 <= k < NUM_SIZE_CLASSES && p in s.partials[k] ==>
          p in s.pages && s.pages[p].class_ == k && s.pages[p].free != [])
    && (forall p :: p in s.pages && s.pages[p].free != [] ==> p in s.partials[s.pages[p].class_])
  }

  predicate IsFreeSlot(s: Slab, p: nat, i: nat) {
    p in s.pages && i in s.pages[p].free
  }

  /** Slot i of page p is one the page has and has handed out. */
  predicate IsUsedSlot(s: Slab, p: nat, i: nat) {
    p in s.pages && s.pages[p].class_ < NUM_SIZE_CLASSES
    && i < SlotsPerPage(s.pages[p].class_) && i !in s.pages[p].free
  }

  function Upto(n: nat): (r: seq<nat>)
    ensures |r| == n && forall i :: 0 <= i < n ==> r[i] == i
  {
    seq(n, i => i)
  }

  /** A new page of class `class_`, all slots free, at the front of the (empty) partial list. */
  function AddPage(s: Slab, p: nat, class_: nat): Slab
    requires class_ < NUM_SIZE_CLASSES && class_ < |s.partials|
  {
    Slab(s.pages[p := Page(class_, Upto(SlotsPerPage(class_)))],
         s.partials[class_ := [p] + s.partials[class_]])
  }

  /** A slab that has no page yet. */
  function EmptySlab(): Slab {
    Slab(map[], seq(NUM_SIZE_CLASSES, _ => []))
  }

  predicate HasPartial(s: Slab, class_: nat) {
    && class_ < |s.partials| && s.partials[class_] != []
    && s.partials[class_][0] in s.pages && s.pages[s.partials[class_][0]].free != []
  }

  /** Take the first free slot of the first partial page: the page, the slot, the slab after. */
  function Pop(s: Slab, class_: nat): (nat, nat, Slab)
    requires HasPartial(s, class_)
  {
    var p := s.partials[class_][0];
    var page := s.pages[p];
    (p, page.free[0],
     Slab(s.pages[p := page.(free := page.free[1..])],
          if |page.free| == 1 then s.partials[class_ := s.partials[class_][1..]] else s.partials))
  }

  /** Put slot i back at the front of page p's free slots; a page that was full becomes partial. */
  function Push(s: Slab, p: nat, i: nat): Slab
    requires p in s.pages && s.pages[p].class_ < |s.partials|
  {
    var page := s.pages[p];
    Slab(s.pages[p := page.(free := [i] + page.free)],
         if page.free == [] then s.partials[page.class_ := [p] + s.partials[page.class_]] else s.partials)
  }

  lemma ClassOfListed(s: Slab, k: nat, p: nat)
    requires WellFormed(s) && k < NUM_SIZE_CLASSES && p in s.partials[k]
    ensures p in s.pages && s.pages[p].class_ == k && s.pages[p].free != []
  {
  }

  lemma NoPartialMeansEmpty(s: Slab, class_: nat)
    requires WellFormed(s) && class_ < NUM_SIZE_CLASSES
    ensures !HasPartial(s, class_) <==> s.partials[class_] == []
  {
    if s.partials[class_] != [] { ClassOfListed(s, class_, s.partials[class_][0]); }
  }

  /** Both slabs have the same pages, of the same classes. */
  ghost predicate SamePages(s: Slab, r: Slab) {
    && (forall q {:trigger q in s.pages} {:trigger q in r.pages} :: q in r.pages <==> q in s.pages)
    && (forall q :: q in s.pages ==> q in r.pages && r.pages[q].class_ == s.pages[q].class_)
  }

  lemma PopSamePages(s: Slab, class_: nat)
    requires HasPartial(s, class_)
    ensures SamePages(s, Pop(s, class_).2)
  {
  }

  lemma PushSamePages(s: Slab, p: nat, i: nat)
    requires p in s.pages && s.pages[p].class_ < |s.partials|
    ensures SamePages(s, Push(s, p, i))
  {
  }

  /** Popping makes exactly one slot less free. */
  lemma PopFreeSlots(s: Slab, class_: nat)
    requires HasPartial(s, class_) && Distinct(s.pages[s.partials[class_][0]].free)
    ensures var (p, i, r) := Pop(s, class_);
      forall q, j :: IsFreeSlot(r, q, j) <==> IsFreeSlot(s, q, j) && !(q == p && j == i)
  {
    var (p, i, r) := Pop(s, class_);
    var free := s.pages[p].free;
    assert free == [i] + free[1..];
    assert forall j: nat :: j in free <==> j == i || j in free[1..];
  }

  lemma PopKeepsWellFormed(s: Slab, class_: nat)
    requires WellFormed(s) && HasPartial(s, class_)
    ensures var (p, i, r) := Pop(s, class_);
      && WellFormed(r) && r.pages.Keys == s.pages.Keys && IsFreeSlot(s, p, i) && IsUsedSlot(r, p, i)
      && s.pages[p].class_ == class_
      && (forall q :: q in s.pages ==> r.pages[q].class_ == s.pages[q].class_)
      && (forall q, j :: IsFreeSlot(r, q, j) <==> IsFreeSlot(s, q, j) && !(q == p && j == i))
  {
    hide SlotsPerPage, ClassToSize;
    var l := s.partials[class_];
    var (p, i, r) := Pop(s, class_);
    var free := s.pages[p].free;
    assert p in l;
    PopFreeSlots(s, class_);
    hide IsFreeSlot;
    assert free == [i] + free[1..] && l == [p] + l[1..];
    assert forall j: nat :: j in free <==> j == i || j in free[1..];
    assert forall q: nat :: q in l <==> q == p || q in l[1..];
    assert i !in free[1..] && p !in l[1..];
    assert Distinct(free[1..]) && Distinct(l[1..]);
  }

  /** Pushing makes exactly one slot more free. */
  lemma PushFreeSlots(s: Slab, p: nat, i: nat)
    requires p in s.pages && s.pages[p].class_ < |s.partials|
    ensures forall q, j :: IsFreeSlot(Push(s, p, i), q, j) <==> IsFreeSlot(s, q, j) || (q == p && j == i)
  {
    assert forall j: nat :: j in [i] + s.pages[p].free <==> j == i || j in s.pages[p].free;
  }

  lemma PushKeepsWellFormed(s: Slab, p: nat, i: nat)
    requires WellFormed(s) && IsUsedSlot(s, p, i)
    ensures var r := Push(s, p, i);
      && WellFormed(r) && r.pages.Keys == s.pages.Keys
      && (forall q :: q in s.pages ==> r.pages[q].class_ == s.pages[q].class_)
      && (forall q, j :: IsFreeSlot(r, q, j) <==> IsFreeSlot(s, q, j) || (q == p && j == i))
  {
    var r := Push(s, p, i);
    var free, k := s.pages[p].free, s.pages[p].class_;
    assert PageOk(r.pages[p]);
    PushFreeSlots(s, p, i);
    hide SlotsPerPage, ClassToSize, PageOk, IsFreeSlot;
    assert forall j: nat :: j in [i] + free <==> j == i || j in free;
    assert forall q: nat :: q in [p] + s.partials[k] <==> q == p || q in s.partials[k];
    if free == [] {
      assert p !in s.partials[k];
      assert Distinct([p] + s.partials[k]);
    }
  }

  lemma AddPageKeepsWellFormed(s: Slab, p: nat, class_: nat)
    requires WellFormed(s) && p !in s.pages && class_ < NUM_SIZE_CLASSES && s.partials[class_] == []
    ensures var r := AddPage(s, p, class_);
      && WellFormed(r) && HasPartial(r, class_) && r.pages.Keys == s.pages.Keys + {p}
      && r.pages[p].class_ == class_
      && (forall q :: q in s.pages ==> r.pages[q] == s.pages[q])
      && (forall i :: i in r.pages[p].free <==> 0 <= i < SlotsPerPage(class_))
  {
    var r := AddPage(s, p, class_);
    forall i: nat | i < SlotsPerPage(class_) ensures i in r.pages[p].free {
      assert r.pages[p].free[i] == i;
    }
    assert PageOk(r.pages[p]);
    hide SlotsPerPage, ClassToSize, PageOk;
    assert r.partials[class_] == [p];
  }

  /** alloc followed by free of the slot it returned is the identity. */
  lemma PushUndoesPop(s: Slab, class_: nat)
    requires WellFormed(s) && HasPartial(s, class_)
    ensures var (p, i, r) := Pop(s, class_);
      IsUsedSlot(r, p, i) && Push(r, p, i) == s
  {
    PopKeepsWellFormed(s, class_);
    hide SlotsPerPage, ClassToSize, PageOk;
    var l := s.partials[class_];
    var (p, i, r) := Pop(s, class_);
    assert p in l;
    assert s.pages[p].free == [i] + s.pages[p].free[1..] && l == [p] + l[1..];
  }

  // ---------------------------------------------------------------------------------------------
  // Freeing a list of slots

  ghost predicate AllUsed(s: Slab, nodes: seq<Slot>) {
    forall n :: n in nodes ==> IsUsedSlot(s, n.page, n.idx)
  }

  predicate CanPush(s: Slab, x: Slot) {
    x.page in s.pages && s.pages[x.page].class_ < |s.partials|
  }

  /** Freeing the nodes one by one, in order; a node on no page of the slab is passed over. */
  function FreeInOrder(s: Slab, nodes: seq<Slot>): Slab
    decreases |nodes|
  {
    if nodes == [] then s
    else FreeInOrder(if CanPush(s, nodes[0]) then Push(s, nodes[0].page, nodes[0].idx) else s, nodes[1..])
  }

  lemma FreeFirst(s: Slab, nodes: seq<Slot>)
    requires WellFormed(s) && AllUsed(s, nodes) && DistinctSlots(nodes) && nodes != []
    ensures IsUsedSlot(s, nodes[0].page, nodes[0].idx) && CanPush(s, nodes[0])
    ensures var r := Push(s, nodes[0].page, nodes[0].idx);
      WellFormed(r) && AllUsed(r, nodes[1..]) && DistinctSlots(nodes[1..])
  {
    hide SlotsPerPage;
    var n := nodes[0];
    assert n in nodes;
    PushKeepsWellFormed(s, n.page, n.idx);
    var r := Push(s, n.page, n.idx);
    forall m | m in nodes[1..] ensures IsUsedSlot(r, m.page, m.idx) {
      assert m in nodes && m != n;
      assert !IsFreeSlot(s, m.page, m.idx);
      assert !IsFreeSlot(r, m.page, m.idx);
    }
  }

  /** Freeing distinct used slots gives back every one of them, and nothing else. */
  lemma {:induction false} FreeInOrderFrees(s: Slab, nodes: seq<Slot>)
    requires WellFormed(s) && AllUsed(s, nodes) && DistinctSlots(nodes)
    ensures var r := FreeInOrder(s, nodes);
      && WellFormed(r) && SamePages(s, r)
      && (forall p, i :: IsFreeSlot(r, p, i) <==> IsFreeSlot(s, p, i) || Slot(p, i) in nodes)
    decreases |nodes|
  {
    hide SlotsPerPage, WellFormed;
    if nodes != [] {
      var n := nodes[0];
      FreeFirst(s, nodes);
      PushKeepsWellFormed(s, n.page, n.idx);
      PushSamePages(s, n.page, n.idx);
      FreeInOrderFrees(Push(s, n.page, n.idx), nodes[1..]);
      assert nodes == [n] + nodes[1..];
      assert forall m :: m in nodes <==> m == n || m in nodes[1..];
    }
  }
}
