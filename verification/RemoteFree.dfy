/** Cross-thread frees as a transition system: any number of threads allocate from their own slabs,
    free their own slots, and push other threads' slots on the owner's stack, one memory access at a
    time over sequentially consistent memory. */
module RemoteFree {
  import opened Lists
  import opened SizeClass
  import opened AbstractSlab
  import opened ArenaLayout

  /** The first word of a slot, read as a pointer. */
  datatype Word = Null | Ptr(slot: Slot) | Junk(bits: nat)

  /** Where a thread is in `ferrum_malloc` (slab path) or `ferrum_free`. */
  datatype Pc =
    | Idle
    | MallocLoad(class_: nat)                                  // about to load its own remote_frees
    | DrainLock(class_: nat)                                   // spinning for the arena lock
    | DrainSwap(class_: nat)                                   // about to swap the stack with null
    | DrainWalk(class_: nat, head: Word)                       // loop test
    | DrainFree(class_: nat, node: Slot, next: Word)           // next has been read
    | DrainUnlock(class_: nat)
    | AllocCheck(class_: nat)                                  // alloc_needs_page?
    | AllocFast(class_: nat)
    | AllocLock(class_: nat)
    | AllocSlow(class_: nat)
    | AllocUnlock
    | FreeRead(ptr: Slot)                                      // about to read the page's owner
    | FreeLocal(ptr: Slot)
    | PushLoad(ptr: Slot, target: nat)
    | PushWrite(ptr: Slot, target: nat, head: Word)            // about to write (*node).next
    | PushCas(ptr: Slot, target: nat, head: Word)

  datatype State = State(
    slabs: seq<Slab>,          // each thread's own slab
    base: nat,                 // of the arena
    owner: map<nat, nat>,      // page -> thread id, as written in the page's record
    pageAddr: map<nat, nat>,   // page -> its address, as written in the page's record
    nextFreePage: nat,
    words: map<Slot, Word>,
    stacks: seq<Word>,         // each thread's remote_frees
    lock: Option<nat>,
    held: set<Slot>,           // slots in the hands of callers
    pcs: seq<Pc>)

  datatype Event =
    | CallMalloc(t: nat, class_: nat)
    | LoadOwnStack(t: nat)
    | Acquire(t: nat)
    | Swap(t: nat)
    | WalkRead(t: nat)
    | WalkFree(t: nat, written: Word)
    | WalkEnd(t: nat)
    | Release(t: nat)
    | CheckPartial(t: nat)
    | TakeFast(t: nat)
    | TakeSlow(t: nat, memory: map<Slot, Word>)
    | Bump(t: nat, pages: nat)
    | CallFree(t: nat, slot: Slot)
    | ReadOwner(t: nat)
    | LocalFree(t: nat, written: Word)
    | LoadTarget(t: nat)
    | WriteNext(t: nat)
    | CasOk(t: nat)
    | CasFail(t: nat)
    | UserWrite(t: nat, slot: Slot, written: Word)

  function Read(words: map<Slot, Word>, x: Slot): Word {
    if x in words then words[x] else Junk(0)
  }

  function At(s: State, t: nat, pc: Pc): State
    requires t < |s.pcs|
  {
    s.(pcs := s.pcs[t := pc])
  }

  // ---------------------------------------------------------------------------------------------
  // Steps

  /** A slot leaves slab t for a caller's hands. */
  function Taken(s: State, t: nat, slab: Slab, class_: nat): State
    requires t < |s.slabs| && HasPartial(slab, class_)
  {
    var (p, i, r) := Pop(slab, class_);
    s.(slabs := s.slabs[t := r], held := s.held + {Slot(p, i)})
  }

  /** slab.free of x by thread t; the free writes the slot's first two bytes, here any word. */
  function Returned(s: State, t: nat, x: Slot, written: Word): State
    requires t < |s.slabs| && IsUsedSlot(s.slabs[t], x.page, x.idx)
    requires s.slabs[t].pages[x.page].class_ < |s.slabs[t].partials|
  {
    s.(slabs := s.slabs[t := Push(s.slabs[t], x.page, x.idx)], words := s.words[x := written])
  }

  predicate CanReturn(s: State, t: nat, x: Slot) {
    t < |s.slabs| && IsUsedSlot(s.slabs[t], x.page, x.idx)
    && s.slabs[t].pages[x.page].class_ < |s.slabs[t].partials|
  }

  predicate SameElsewhere(words: map<Slot, Word>, words': map<Slot, Word>, page: nat) {
    && (forall x :: x in words && x.page != page ==> x in words' && words'[x] == words[x])
    && (forall x :: x in words' && x.page != page ==> x in words)
  }

  /** alloc under the lock: from a partial page, from a new page, or nothing when the arena is full. */
  ghost predicate SlowStep(s: State, t: nat, class_: nat, memory: map<Slot, Word>, s': State)
    requires t < |s.pcs| == |s.slabs| && class_ < NUM_SIZE_CLASSES && |s.slabs[t].partials| == NUM_SIZE_CLASSES
  {
    if HasPartial(s.slabs[t], class_) then
      s' == At(Taken(s, t, s.slabs[t], class_), t, AllocUnlock)
    else if s.nextFreePage < PAGES_PER_ARENA then
      var p := s.nextFreePage;
      var slab := AddPage(s.slabs[t], p, class_);
      && SameElsewhere(s.words, memory, p)
      && HasPartial(slab, class_)
      && s' == At(Taken(s.(nextFreePage := p + 1, owner := s.owner[p := t],
                           pageAddr := s.pageAddr[p := PageAddr(s.base, p)], words := memory), t, slab, class_),
                  t, AllocUnlock)
    else
      s' == At(s, t, AllocUnlock)
  }

  ghost predicate Step(s: State, e: Event, s': State) {
    e.t < |s.pcs| == |s.slabs| == |s.stacks| &&
    var t, pc := e.t, s.pcs[e.t];
    match e
    case CallMalloc(_, class_) => pc.Idle? && class_ < NUM_SIZE_CLASSES && s' == At(s, t, MallocLoad(class_))
    case LoadOwnStack(_) => pc.MallocLoad? &&
      s' == At(s, t, if s.stacks[t] != Null then DrainLock(pc.class_) else AllocCheck(pc.class_))
    case Acquire(_) => (pc.DrainLock? || pc.AllocLock?) && s.lock.None? &&
      s' == At(s.(lock := Some(t)), t, if pc.DrainLock? then DrainSwap(pc.class_) else AllocSlow(pc.class_))
    case Swap(_) => pc.DrainSwap? &&
      s' == At(s.(stacks := s.stacks[t := Null]), t, DrainWalk(pc.class_, s.stacks[t]))
    case WalkRead(_) => pc.DrainWalk? && pc.head.Ptr? &&
      s' == At(s, t, DrainFree(pc.class_, pc.head.slot, Read(s.words, pc.head.slot)))
    case WalkFree(_, written) => pc.DrainFree? && CanReturn(s, t, pc.node) &&
      s' == At(Returned(s, t, pc.node, written), t, DrainWalk(pc.class_, pc.next))
    case WalkEnd(_) => pc.DrainWalk? && pc.head.Null? && s' == At(s, t, DrainUnlock(pc.class_))
    case Release(_) => (pc.DrainUnlock? || pc.AllocUnlock?) &&
      s' == At(s.(lock := None), t, if pc.DrainUnlock? then AllocCheck(pc.class_) else Idle)
    case CheckPartial(_) => pc.AllocCheck? &&
      s' == At(s, t, if HasPartial(s.slabs[t], pc.class_) then AllocFast(pc.class_) else AllocLock(pc.class_))
    case TakeFast(_) => pc.AllocFast? && HasPartial(s.slabs[t], pc.class_) &&
      s' == At(Taken(s, t, s.slabs[t], pc.class_), t, Idle)
    case TakeSlow(_, memory) => pc.AllocSlow? && pc.class_ < NUM_SIZE_CLASSES == |s.slabs[t].partials| &&
      SlowStep(s, t, pc.class_, memory, s')
    case Bump(_, pages) => pc.Idle? && s.lock.None? && s.nextFreePage + pages <= PAGES_PER_ARENA &&
      s' == s.(nextFreePage := s.nextFreePage + pages)
    case CallFree(_, x) => pc.Idle? && x in s.held && s' == At(s.(held := s.held - {x}), t, FreeRead(x))
    case ReadOwner(_) => pc.FreeRead? && pc.ptr.page in s.owner &&
      s' == At(s, t, if s.owner[pc.ptr.page] == t then FreeLocal(pc.ptr) else PushLoad(pc.ptr, s.owner[pc.ptr.page]))
    case LocalFree(_, written) => pc.FreeLocal? && CanReturn(s, t, pc.ptr) &&
      s' == At(Returned(s, t, pc.ptr, written), t, Idle)
    case LoadTarget(_) => pc.PushLoad? && pc.target < |s.stacks| &&
      s' == At(s, t, PushWrite(pc.ptr, pc.target, s.stacks[pc.target]))
    case WriteNext(_) => pc.PushWrite? &&
      s' == At(s.(words := s.words[pc.ptr := pc.head]), t, PushCas(pc.ptr, pc.target, pc.head))
    case CasOk(_) => pc.PushCas? && pc.target < |s.stacks| && s.stacks[pc.target] == pc.head &&
      s' == At(s.(stacks := s.stacks[pc.target := Ptr(pc.ptr)]), t, Idle)
    case CasFail(_) => pc.PushCas? && pc.target < |s.stacks| &&
      s' == At(s, t, PushWrite(pc.ptr, pc.target, s.stacks[pc.target]))
    case UserWrite(_, x, written) => x in s.held && s' == s.(words := s.words[x := written])
  }

  // ---------------------------------------------------------------------------------------------
  // Where every slot is

  datatype Place =
    | FreeOnPage              // on its page's free list
    | Held                    // in a caller's hands
    | InFlight(thread: nat)       // being freed by `thread`, not yet on a stack
    | Stacked(on: nat)        // on thread `on`'s stack
    | Draining(on: nat)       // in the chain thread `on` has detached

  /** The bookkeeping: each slot's place, the contents of the stacks and of the detached chains. */
  datatype Book = Book(place: map<Slot, Place>, stacks: seq<seq<Slot>>, chains: seq<seq<Slot>>)

  function Carried(pc: Pc): Option<Slot> {
    match pc
    case FreeRead(x) => Some(x)
    case FreeLocal(x) => Some(x)
    case PushLoad(x, _) => Some(x)
    case PushWrite(x, _, _) => Some(x)
    case PushCas(x, _, _) => Some(x)
    case _ => None
  }

  predicate InCritical(pc: Pc) {
    pc.DrainSwap? || pc.DrainWalk? || pc.DrainFree? || pc.DrainUnlock? || pc.AllocSlow? || pc.AllocUnlock?
  }

  /** Following the words from `head` visits exactly l and ends at null. */
  ghost predicate LinkedAs(words: map<Slot, Word>, head: Word, l: seq<Slot>)
    decreases |l|
  {
    if l == [] then head == Null
    else head == Ptr(l[0]) && LinkedAs(words, Read(words, l[0]), l[1..])
  }

  ghost predicate ChainAt(words: map<Slot, Word>, pc: Pc, chain: seq<Slot>) {
    match pc
    case DrainWalk(_, head) => LinkedAs(words, head, chain)
    case DrainFree(_, node, next) => chain != [] && chain[0] == node && LinkedAs(words, next, chain[1..])
    case _ => chain == []
  }

  predicate IsSlot(s: State, x: Slot) {
    && x.page in s.owner && s.owner[x.page] < |s.slabs|
    && x.page in s.slabs[s.owner[x.page]].pages
    && s.slabs[s.owner[x.page]].pages[x.page].class_ < NUM_SIZE_CLASSES
    && x.idx < SlotsPerPage(s.slabs[s.owner[x.page]].pages[x.page].class_)
  }

  /** Slabs are well formed and own disjoint sets of pages, as the page records say. */
  ghost predicate Owned(s: State) {
    && (forall t :: 0 <= t < |s.slabs| ==> WellFormed(s.slabs[t]))
    && (forall p :: p in s.owner ==> s.owner[p] < |s.slabs| && p in s.slabs[s.owner[p]].pages && p < s.nextFreePage)
    && (forall t, p :: 0 <= t < |s.slabs| && p in s.slabs[t].pages ==> p in s.owner && s.owner[p] == t)
  }

  /** A page's record has the page's address. */
  ghost predicate Addressed(s: State) {
    forall p :: p in s.owner ==> p in s.pageAddr && s.pageAddr[p] == PageAddr(s.base, p)
  }

  ghost predicate SlotOk(s: State, b: Book, x: Slot)
    requires x in b.place
  {
    && IsSlot(s, x)
    && (b.place[x] == FreeOnPage <==> IsFreeSlot(s.slabs[s.owner[x.page]], x.page, x.idx))
    && (b.place[x] == Held <==> x in s.held)
    && match b.place[x]
       case InFlight(t) => t < |s.pcs| && Carried(s.pcs[t]) == Some(x)
       case Stacked(t) => t < |b.stacks| && x in b.stacks[t] && s.owner[x.page] == t
       case Draining(t) => t < |b.chains| && x in b.chains[t] && s.owner[x.page] == t
       case _ => true
  }

  ghost predicate PcOk(s: State, t: nat, pc: Pc) {
    match pc
    case MallocLoad(c) => c < NUM_SIZE_CLASSES
    case DrainLock(c) => c < NUM_SIZE_CLASSES
    case DrainSwap(c) => c < NUM_SIZE_CLASSES
    case DrainWalk(c, _) => c < NUM_SIZE_CLASSES
    case DrainFree(c, _, _) => c < NUM_SIZE_CLASSES
    case DrainUnlock(c) => c < NUM_SIZE_CLASSES
    case AllocCheck(c) => c < NUM_SIZE_CLASSES
    case AllocFast(c) => c < NUM_SIZE_CLASSES && t < |s.slabs| && HasPartial(s.slabs[t], c)
    case AllocLock(c) => c < NUM_SIZE_CLASSES
    case AllocSlow(c) => c < NUM_SIZE_CLASSES
    case FreeLocal(x) => x.page in s.owner && s.owner[x.page] == t
    case PushLoad(x, target) => x.page in s.owner && s.owner[x.page] == target != t
    case PushWrite(x, target, _) => x.page in s.owner && s.owner[x.page] == target != t
    case PushCas(x, target, head) => x.page in s.owner && s.owner[x.page] == target != t && Read(s.words, x) == head
    case _ => true
  }

  ghost predicate ThreadOk(s: State, b: Book, t: nat)
    requires t < |s.pcs| == |s.stacks| == |b.stacks| == |b.chains|
  {
    && PcOk(s, t, s.pcs[t])
    && (Carried(s.pcs[t]).Some? ==> var x := Carried(s.pcs[t]).value; x in b.place && b.place[x] == InFlight(t))
    && DistinctSlots(b.stacks[t]) && DistinctSlots(b.chains[t])
    && (forall x :: x in b.stacks[t] ==> x in b.place && b.place[x] == Stacked(t))
    && (forall x :: x in b.chains[t] ==> x in b.place && b.place[x] == Draining(t))
    && LinkedAs(s.words, s.stacks[t], b.stacks[t])
    && ChainAt(s.words, s.pcs[t], b.chains[t])
    && (InCritical(s.pcs[t]) <==> s.lock == Some(t))
  }

  /** Every slot has exactly one place, and it is the right one. */
  ghost predicate SlotsOk(s: State, b: Book) {
    && (forall x :: x in b.place ==> SlotOk(s, b, x))
    && (forall x :: IsSlot(s, x) ==> x in b.place)
    && (forall x :: x in s.held ==> x in b.place && b.place[x] == Held)
  }

  ghost predicate Sized(s: State, b: Book) {
    |s.slabs| == |s.pcs| == |s.stacks| == |b.stacks| == |b.chains|
  }

  ghost predicate ThreadsOk(s: State, b: Book) {
    Sized(s, b) && forall t :: 0 <= t < |s.pcs| ==> ThreadOk(s, b, t)
  }

  ghost predicate Inv(s: State, b: Book) {
    && Owned(s)
    && Addressed(s)
    && SlotsOk(s, b)
    && ThreadsOk(s, b)
    && (s.lock.Some? ==> s.lock.value < |s.pcs|)
  }

  // ---------------------------------------------------------------------------------------------
  // How a step moves the bookkeeping

  function Swapped(b: Book, t: nat): Book
    requires t < |b.stacks| == |b.chains|
  {
    Book(map x | x in b.place :: if b.place[x] == Stacked(t) then Draining(t) else b.place[x],
         b.stacks[t := []], b.chains[t := b.stacks[t]])
  }

  function PushedOn(b: Book, x: Slot, target: nat): Book
    requires target < |b.stacks|
  {
    b.(place := b.place[x := Stacked(target)], stacks := b.stacks[target := [x] + b.stacks[target]])
  }

  /** All slots of a new page are free on it. */
  ghost function FreshPlaces(place: map<Slot, Place>, p: nat, class_: nat): map<Slot, Place>
    requires class_ < NUM_SIZE_CLASSES
  {
    var all := set i | i in Upto(SlotsPerPage(class_)) :: Slot(p, i);
    map x | x in place.Keys + all :: if x in all then FreeOnPage else place[x]
  }

  function Tail(l: seq<Slot>): seq<Slot> {
    if l == [] then [] else l[1..]
  }

  ghost function NextBook(s: State, b: Book, e: Event): Book
    requires e.t < |s.pcs| == |s.slabs| == |b.stacks| == |b.chains|
  {
    var t, pc := e.t, s.pcs[e.t];
    match e
    case Swap(_) => Swapped(b, t)
    case WalkFree(_, _) =>
      if pc.DrainFree? then Book(b.place[pc.node := FreeOnPage], b.stacks, b.chains[t := Tail(b.chains[t])]) else b
    case TakeFast(_) =>
      if pc.AllocFast? && HasPartial(s.slabs[t], pc.class_) then
        b.(place := b.place[PoppedSlot(s.slabs[t], pc.class_) := Held])
      else b
    case TakeSlow(_, _) =>
      if !pc.AllocSlow? || pc.class_ >= NUM_SIZE_CLASSES then b
      else if HasPartial(s.slabs[t], pc.class_) then
        b.(place := b.place[PoppedSlot(s.slabs[t], pc.class_) := Held])
      else if s.nextFreePage < PAGES_PER_ARENA then
        b.(place := FreshPlaces(b.place, s.nextFreePage, pc.class_)[Slot(s.nextFreePage, 0) := Held])
      else b
    case CallFree(_, x) => b.(place := b.place[x := InFlight(t)])
    case LocalFree(_, _) => if pc.FreeLocal? then b.(place := b.place[pc.ptr := FreeOnPage]) else b
    case CasOk(_) => if pc.PushCas? && pc.target < |b.stacks| then PushedOn(b, pc.ptr, pc.target) else b
    case _ => b
  }

  function PoppedSlot(slab: Slab, class_: nat): Slot
    requires HasPartial(slab, class_)
  {
    var (p, i, r) := Pop(slab, class_);
    Slot(p, i)
  }
}
