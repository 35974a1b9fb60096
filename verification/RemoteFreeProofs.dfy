/** The bookkeeping invariant is kept by every step of every interleaving. */
module RemoteFreeProofs {
  import opened Lists
  import opened SizeClass
  import opened AbstractSlab
  import opened ArenaLayout
  import opened RemoteFree

  // ---------------------------------------------------------------------------------------------
  // What a step does not touch stays as it was

  lemma {:induction false} LinkedFrame(words: map<Slot, Word>, words': map<Slot, Word>, head: Word, l: seq<Slot>)
    requires LinkedAs(words, head, l) && forall y :: y in l ==> Read(words', y) == Read(words, y)
    ensures LinkedAs(words', head, l)
    decreases |l|
  {
    if l != [] {
      assert l[0] in l;
      forall y | y in l[1..] ensures y in l {}
      LinkedFrame(words, words', Read(words, l[0]), l[1..]);
    }
  }

  lemma ChainFrame(words: map<Slot, Word>, words': map<Slot, Word>, pc: Pc, chain: seq<Slot>)
    requires ChainAt(words, pc, chain) && forall y :: y in chain ==> Read(words', y) == Read(words, y)
    ensures ChainAt(words', pc, chain)
  {
    match pc
    case DrainWalk(_, head) => LinkedFrame(words, words', head, chain);
    case DrainFree(_, node, next) =>
      forall y | y in chain[1..] ensures y in chain {}
      LinkedFrame(words, words', next, chain[1..]);
    case _ =>
  }

  /** The slots thread u has to do with: on its stack, in its chain, or carried by it. */
  ghost predicate Concerns(s: State, b: Book, u: nat, x: Slot)
    requires Sized(s, b) && u < |s.pcs|
  {
    x in b.stacks[u] || x in b.chains[u] || Carried(s.pcs[u]) == Some(x)
  }

  /** A thread whose own data and whose slots a step leaves alone is as well off as before. */
  lemma ThreadStill(s: State, b: Book, s': State, b': Book, u: nat)
    requires Sized(s, b) && Sized(s', b') && u < |s.pcs| == |s'.pcs| && ThreadOk(s, b, u)
    requires s'.pcs[u] == s.pcs[u] && s'.stacks[u] == s.stacks[u] && s'.slabs[u] == s.slabs[u]
    requires b'.stacks[u] == b.stacks[u] && b'.chains[u] == b.chains[u]
    requires s'.lock == Some(u) <==> s.lock == Some(u)
    requires forall x :: Concerns(s, b, u, x) ==>
               && Read(s'.words, x) == Read(s.words, x)
               && x in b'.place && x in b.place && b'.place[x] == b.place[x]
    requires forall p :: p in s.owner ==> p in s'.owner && s'.owner[p] == s.owner[p]
    ensures ThreadOk(s', b', u)
  {
    hide LinkedAs, ChainAt, DistinctSlots, HasPartial;
    forall x | x in b.stacks[u] || x in b.chains[u]
      ensures Read(s'.words, x) == Read(s.words, x) && x in b'.place && b'.place[x] == b.place[x]
    {
      assert Concerns(s, b, u, x);
    }
    if Carried(s.pcs[u]).Some? { assert Concerns(s, b, u, Carried(s.pcs[u]).value); }
    LinkedFrame(s.words, s'.words, s.stacks[u], b.stacks[u]);
    ChainFrame(s.words, s'.words, s.pcs[u], b.chains[u]);
  }

  /** The place of every slot of concern. */
  lemma ConcernPlace(s: State, b: Book, u: nat, x: Slot)
    requires Sized(s, b) && u < |s.pcs| && ThreadOk(s, b, u) && Concerns(s, b, u, x)
    ensures x in b.place && (b.place[x] == Stacked(u) || b.place[x] == Draining(u) || b.place[x] == InFlight(u))
  {
  }

  /** A slot whose place a step does not change. */
  lemma SlotStill(s: State, b: Book, s': State, b': Book, x: Slot)
    requires Sized(s, b) && Sized(s', b') && |s.pcs| == |s'.pcs|
    requires x in b.place && SlotOk(s, b, x) && x in b'.place && b'.place[x] == b.place[x]
    requires IsSlot(s', x) && s'.owner[x.page] == s.owner[x.page]
    requires IsFreeSlot(s'.slabs[s'.owner[x.page]], x.page, x.idx) == IsFreeSlot(s.slabs[s.owner[x.page]], x.page, x.idx)
    requires x in s'.held <==> x in s.held
    requires forall u :: 0 <= u < |s.pcs| && b.place[x] == InFlight(u) && Carried(s.pcs[u]) == Some(x) ==>
               Carried(s'.pcs[u]) == Some(x)
    requires forall u :: 0 <= u < |s.pcs| && b.place[x] == Stacked(u) && x in b.stacks[u] ==> x in b'.stacks[u]
    requires forall u :: 0 <= u < |s.pcs| && b.place[x] == Draining(u) && x in b.chains[u] ==> x in b'.chains[u]
    ensures SlotOk(s', b', x)
  {
  }

  // ---------------------------------------------------------------------------------------------
  // Control steps

  /** Steps that move only a program counter, the lock or the bump counter. */
  lemma ControlKeeps(s: State, b: Book, t: nat, pc: Pc, s': State)
    requires Inv(s, b) && t < |s.pcs|
    requires s' == At(s.(lock := s'.lock, nextFreePage := s'.nextFreePage), t, pc) && s.nextFreePage <= s'.nextFreePage
    requires Carried(pc) == Carried(s.pcs[t]) && ChainAt(s.words, pc, b.chains[t]) && PcOk(s, t, pc)
    requires
      || (s'.lock == s.lock && InCritical(pc) == InCritical(s.pcs[t]))
      || (s.lock == None && s'.lock == Some(t) && InCritical(pc))
      || (s.lock == Some(t) && s'.lock == None && !InCritical(pc))
    ensures Inv(s', b)
  {
    hide ChainAt, LinkedAs, SlotsPerPage, WellFormed, DistinctSlots, HasPartial, ThreadOk, SlotOk;
    ControlThread(s, b, t, pc, s');
    OtherThreads(s, b, s', b, t);
    SameSlots(s, b, s');
  }

  lemma ControlThread(s: State, b: Book, t: nat, pc: Pc, s': State)
    requires Sized(s, b) && t < |s.pcs| && ThreadOk(s, b, t)
    requires s' == At(s.(lock := s'.lock, nextFreePage := s'.nextFreePage), t, pc)
    requires Carried(pc) == Carried(s.pcs[t]) && ChainAt(s.words, pc, b.chains[t]) && PcOk(s, t, pc)
    requires
      || (s'.lock == s.lock && InCritical(pc) == InCritical(s.pcs[t]))
      || (s.lock == None && s'.lock == Some(t) && InCritical(pc))
      || (s.lock == Some(t) && s'.lock == None && !InCritical(pc))
    ensures ThreadOk(s', b, t)
  {
    hide ChainAt, LinkedAs, DistinctSlots, HasPartial;
  }

  /** Every thread but t, when a step of t leaves their slots' words and places alone. */
  lemma OtherThreads(s: State, b: Book, s': State, b': Book, t: nat)
    requires ThreadsOk(s, b) && Sized(s', b') && |s'.pcs| == |s.pcs|
    requires forall u :: 0 <= u < |s.pcs| && u != t ==>
               && s'.pcs[u] == s.pcs[u] && s'.stacks[u] == s.stacks[u] && s'.slabs[u] == s.slabs[u]
               && b'.stacks[u] == b.stacks[u] && b'.chains[u] == b.chains[u]
               && (s'.lock == Some(u) <==> s.lock == Some(u))
    requires forall u, x ::
               (0 <= u < |s.pcs| && u != t && x in b.place && Concerns(s, b, u, x)
                && (b.place[x] == Stacked(u) || b.place[x] == Draining(u) || b.place[x] == InFlight(u)))
               ==> Read(s'.words, x) == Read(s.words, x) && x in b'.place && b'.place[x] == b.place[x]
    requires forall p :: p in s.owner ==> p in s'.owner && s'.owner[p] == s.owner[p]
    ensures forall u :: 0 <= u < |s.pcs| && u != t ==> ThreadOk(s', b', u)
  {
    hide ThreadOk, Concerns, Read;
    forall u | 0 <= u < |s.pcs| && u != t ensures ThreadOk(s', b', u) {
      forall x | Concerns(s, b, u, x)
        ensures x in b.place && (b.place[x] == Stacked(u) || b.place[x] == Draining(u) || b.place[x] == InFlight(u))
      {
        ConcernPlace(s, b, u, x);
      }
      ThreadStill(s, b, s', b', u);
    }
  }

  /** Steps that leave slabs, owners, hands and carried slots alone leave every slot where it is. */
  lemma SameSlots(s: State, b: Book, s': State)
    requires SlotsOk(s, b) && Sized(s, b) && Sized(s', b) && |s.pcs| == |s'.pcs|
    requires s'.slabs == s.slabs && s'.owner == s.owner && s'.held == s.held
    requires forall u :: 0 <= u < |s.pcs| ==> Carried(s'.pcs[u]) == Carried(s.pcs[u])
    ensures SlotsOk(s', b)
  {
    hide SlotOk, SlotsPerPage;
    forall x | x in b.place ensures SlotOk(s', b, x) {
      SlotPlaced(s, b, x);
      SlotStill(s, b, s', b, x);
    }
    assert forall x :: IsSlot(s', x) <==> IsSlot(s, x);
  }

  lemma SlotPlaced(s: State, b: Book, x: Slot)
    requires x in b.place && SlotOk(s, b, x)
    ensures IsSlot(s, x) && (b.place[x] == FreeOnPage <==> IsFreeSlot(s.slabs[s.owner[x.page]], x.page, x.idx))
    ensures b.place[x] == Held <==> x in s.held
  {
  }

  // ---------------------------------------------------------------------------------------------
  // Memory, stack and chain steps

  /** A word of a slot in a caller's hands, or carried by thread t about to push it, may change. */
  lemma WordKeeps(s: State, b: Book, t: nat, x: Slot, w: Word, pc: Pc, s': State)
    requires Inv(s, b) && t < |s.pcs| && x in b.place
    requires s' == At(s.(words := s.words[x := w]), t, pc)
    requires
      || (b.place[x] == Held && pc == s.pcs[t])
      || (s.pcs[t].PushWrite? && x == s.pcs[t].ptr && pc == PushCas(x, s.pcs[t].target, w))
    ensures Inv(s', b)
  {
    hide ChainAt, LinkedAs, SlotsPerPage, WellFormed, DistinctSlots, HasPartial, ThreadOk, SlotOk;
    WordThread(s, b, t, x, w, pc, s');
    forall u, y | 0 <= u < |s.pcs| && u != t && y in b.place && Concerns(s, b, u, y) ensures y != x {
      assert ThreadOk(s, b, t);
      WordPlace(s, b, t, x);
      ConcernPlace(s, b, u, y);
    }
    OtherThreads(s, b, s', b, t);
    SameSlots(s, b, s');
  }

  lemma WordPlace(s: State, b: Book, t: nat, x: Slot)
    requires Sized(s, b) && t < |s.pcs| && ThreadOk(s, b, t)
    ensures s.pcs[t].PushWrite? && x == s.pcs[t].ptr ==> x in b.place && b.place[x] == InFlight(t)
  {
  }

  lemma WordThread(s: State, b: Book, t: nat, x: Slot, w: Word, pc: Pc, s': State)
    requires Sized(s, b) && t < |s.pcs| && x in b.place && ThreadOk(s, b, t)
    requires s' == At(s.(words := s.words[x := w]), t, pc)
    requires
      || (b.place[x] == Held && pc == s.pcs[t])
      || (s.pcs[t].PushWrite? && x == s.pcs[t].ptr && pc == PushCas(x, s.pcs[t].target, w))
    ensures ThreadOk(s', b, t)
  {
    hide LinkedAs, DistinctSlots, HasPartial;
    assert x !in b.stacks[t] && x !in b.chains[t];
    LinkedFrame(s.words, s'.words, s.stacks[t], b.stacks[t]);
    ChainFrame(s.words, s'.words, s.pcs[t], b.chains[t]);
  }

  /** The whole stack becomes the owner's detached chain. */
  lemma SwapKeeps(s: State, b: Book, t: nat, class_: nat, s': State)
    requires Inv(s, b) && t < |s.pcs| && s.pcs[t] == DrainSwap(class_)
    requires s' == At(s.(stacks := s.stacks[t := Null]), t, DrainWalk(class_, s.stacks[t]))
    ensures Inv(s', Swapped(b, t))
  {
    hide ChainAt, LinkedAs, SlotsPerPage, WellFormed, DistinctSlots, HasPartial, ThreadOk, SlotOk;
    var b' := Swapped(b, t);
    SwapThread(s, b, t, class_, s');
    OtherThreads(s, b, s', b', t);
    assert SlotsOk(s', b') by {
      forall x | x in b'.place ensures SlotOk(s', b', x) { SwapSlot(s, b, t, class_, s', x); }
      assert forall x :: IsSlot(s', x) <==> IsSlot(s, x);
    }
  }

  lemma SwapThread(s: State, b: Book, t: nat, class_: nat, s': State)
    requires Sized(s, b) && t < |s.pcs| && ThreadOk(s, b, t) && s.pcs[t] == DrainSwap(class_)
    requires s' == At(s.(stacks := s.stacks[t := Null]), t, DrainWalk(class_, s.stacks[t]))
    ensures ThreadOk(s', Swapped(b, t), t)
  {
    assert LinkedAs(s.words, Null, []);
  }

  lemma SwapSlot(s: State, b: Book, t: nat, class_: nat, s': State, x: Slot)
    requires Sized(s, b) && t < |s.pcs| && ThreadOk(s, b, t) && s.pcs[t] == DrainSwap(class_)
    requires s' == At(s.(stacks := s.stacks[t := Null]), t, DrainWalk(class_, s.stacks[t]))
    requires x in b.place && SlotOk(s, b, x)
    ensures SlotOk(s', Swapped(b, t), x)
  {
    hide LinkedAs, DistinctSlots, SlotsPerPage;
  }

  /** A compare-and-swap that finds the head it expects pushes the carried node, whatever happened to
      that head in between: the node's `next` equals the head that is there now. */
  lemma CasOkKeeps(s: State, b: Book, t: nat, x: Slot, target: nat, s': State)
    requires Inv(s, b) && t < |s.pcs| && target < |s.stacks| && s.pcs[t] == PushCas(x, target, s.stacks[target])
    requires s' == At(s.(stacks := s.stacks[target := Ptr(x)]), t, Idle)
    ensures Inv(s', PushedOn(b, x, target))
  {
    hide ChainAt, LinkedAs, SlotsPerPage, WellFormed, DistinctSlots, HasPartial, ThreadOk, SlotOk;
    var b' := PushedOn(b, x, target);
    CasThreads(s, b, t, x, target, s');
    assert SlotsOk(s', b') by {
      forall y | y in b'.place ensures SlotOk(s', b', y) { CasSlot(s, b, t, x, target, s', y); }
      assert forall y :: IsSlot(s', y) <==> IsSlot(s, y);
    }
    forall u | 0 <= u < |s.pcs| && u != t && u != target ensures ThreadOk(s', b', u) {
      assert ThreadOk(s, b, u);
      forall y | Concerns(s, b, u, y) ensures y in b.place && y != x {
        ConcernPlace(s, b, u, y);
      }
      ThreadStill(s, b, s', b', u);
    }
  }

  lemma CasThreads(s: State, b: Book, t: nat, x: Slot, target: nat, s': State)
    requires Sized(s, b) && t < |s.pcs| && target < |s.stacks| && s.pcs[t] == PushCas(x, target, s.stacks[target])
    requires ThreadOk(s, b, t) && ThreadOk(s, b, target)
    requires s' == At(s.(stacks := s.stacks[target := Ptr(x)]), t, Idle)
    ensures x in b.place && b.place[x] == InFlight(t) && x.page in s.owner && s.owner[x.page] == target != t
    ensures ThreadOk(s', PushedOn(b, x, target), t) && ThreadOk(s', PushedOn(b, x, target), target)
  {
    var l := b.stacks[target];
    assert x !in l && ([x] + l)[1..] == l;
    assert LinkedAs(s.words, Ptr(x), [x] + l);
    assert DistinctSlots([x] + l);
    hide LinkedAs, DistinctSlots, HasPartial;
  }

  lemma CasSlot(s: State, b: Book, t: nat, x: Slot, target: nat, s': State, y: Slot)
    requires Sized(s, b) && t < |s.pcs| && target < |s.stacks| && s.pcs[t] == PushCas(x, target, s.stacks[target])
    requires x in b.place && b.place[x] == InFlight(t) && x.page in s.owner && s.owner[x.page] == target
    requires s' == At(s.(stacks := s.stacks[target := Ptr(x)]), t, Idle)
    requires y in b.place && SlotOk(s, b, y) && SlotOk(s, b, x)
    ensures SlotOk(s', PushedOn(b, x, target), y)
  {
    hide SlotsPerPage;
  }

  /** A caller gives up a slot: from now on thread t carries it. */
  lemma CallFreeKeeps(s: State, b: Book, t: nat, x: Slot, s': State)
    requires Inv(s, b) && t < |s.pcs| && s.pcs[t].Idle? && x in s.held
    requires s' == At(s.(held := s.held - {x}), t, FreeRead(x))
    ensures Inv(s', b.(place := b.place[x := InFlight(t)]))
  {
    hide ChainAt, LinkedAs, SlotsPerPage, WellFormed, DistinctSlots, HasPartial, ThreadOk, SlotOk;
    var b' := b.(place := b.place[x := InFlight(t)]);
    CallFreeThread(s, b, t, x, s');
    OtherThreads(s, b, s', b', t);
    assert SlotsOk(s', b') by {
      forall y | y in b'.place ensures SlotOk(s', b', y) { CallFreeSlot(s, b, t, x, s', y); }
      assert forall y :: IsSlot(s', y) <==> IsSlot(s, y);
    }
  }

  lemma CallFreeThread(s: State, b: Book, t: nat, x: Slot, s': State)
    requires Sized(s, b) && t < |s.pcs| && ThreadOk(s, b, t) && s.pcs[t].Idle? && x in b.place && b.place[x] == Held
    requires s' == At(s.(held := s.held - {x}), t, FreeRead(x))
    ensures ThreadOk(s', b.(place := b.place[x := InFlight(t)]), t)
  {
    hide LinkedAs, DistinctSlots, HasPartial;
  }

  lemma CallFreeSlot(s: State, b: Book, t: nat, x: Slot, s': State, y: Slot)
    requires Sized(s, b) && t < |s.pcs| && s.pcs[t].Idle? && x in b.place && b.place[x] == Held
    requires s' == At(s.(held := s.held - {x}), t, FreeRead(x))
    requires y in b.place && SlotOk(s, b, y) && SlotOk(s, b, x)
    ensures SlotOk(s', b.(place := b.place[x := InFlight(t)]), y)
  {
    hide SlotsPerPage;
  }

  // ---------------------------------------------------------------------------------------------
  // Slab steps

  /** A slab replaced by one with the same pages and classes: owners and slots are the same. */
  lemma SlabReplaced(s: State, t: nat, r: Slab, s': State)
    requires Owned(s) && t < |s.slabs| && WellFormed(r)
    requires s'.slabs == s.slabs[t := r] && s'.owner == s.owner && s'.nextFreePage == s.nextFreePage
    requires r.pages.Keys == s.slabs[t].pages.Keys
    requires forall q :: q in r.pages ==> r.pages[q].class_ == s.slabs[t].pages[q].class_
    ensures Owned(s') && forall x :: IsSlot(s', x) <==> IsSlot(s, x)
  {
    hide SlotsPerPage, WellFormed;
    assert forall q :: q in r.pages <==> q in r.pages.Keys;
    assert forall q :: q in s.slabs[t].pages <==> q in s.slabs[t].pages.Keys;
  }

  /** Thread t hands slot x to slab.free, from its detached chain or as a local free. */
  ghost predicate Returning(s: State, b: Book, t: nat, x: Slot, pc: Pc, chain: seq<Slot>)
    requires Sized(s, b) && t < |s.pcs|
  {
    || (s.pcs[t].DrainFree? && s.pcs[t].node == x && pc == DrainWalk(s.pcs[t].class_, s.pcs[t].next)
        && b.chains[t] != [] && chain == b.chains[t][1..])
    || (s.pcs[t] == FreeLocal(x) && pc == Idle && chain == b.chains[t])
  }

  /** Every call of slab.free is legal: the slot is one the thread's own slab has handed out. */
  lemma FreeIsLegal(s: State, b: Book, t: nat)
    requires Inv(s, b) && t < |s.pcs|
    ensures s.pcs[t].DrainFree? ==> CanReturn(s, t, s.pcs[t].node) && s.owner[s.pcs[t].node.page] == t
    ensures s.pcs[t].FreeLocal? ==> CanReturn(s, t, s.pcs[t].ptr) && s.owner[s.pcs[t].ptr.page] == t
  {
    hide LinkedAs, DistinctSlots, SlotsPerPage, WellFormed, IsSlot, SlotOk, Owned, IsUsedSlot, ThreadOk;
    assert ThreadOk(s, b, t);
    if s.pcs[t].DrainFree? || s.pcs[t].FreeLocal? {
      var x := if s.pcs[t].DrainFree? then s.pcs[t].node else s.pcs[t].ptr;
      ReturnedPlace(s, b, t, x);
      ReturnedIsUsed(s, b, t, x);
    }
  }

  lemma ReturnedPlace(s: State, b: Book, t: nat, x: Slot)
    requires Sized(s, b) && t < |s.pcs| && ThreadOk(s, b, t)
    requires (s.pcs[t].DrainFree? && s.pcs[t].node == x) || (s.pcs[t].FreeLocal? && s.pcs[t].ptr == x)
    ensures x in b.place && (b.place[x] == Draining(t) || b.place[x] == InFlight(t))
    ensures s.pcs[t].FreeLocal? ==> x.page in s.owner && s.owner[x.page] == t
    ensures s.pcs[t].DrainFree? ==> b.place[x] == Draining(t)
  {
    assert s.pcs[t].DrainFree? ==> x in b.chains[t];
  }

  lemma ReturnedIsUsed(s: State, b: Book, t: nat, x: Slot)
    requires Owned(s) && Sized(s, b) && t < |s.pcs| && x in b.place && SlotOk(s, b, x)
    requires b.place[x] == Draining(t) || (b.place[x] == InFlight(t) && x.page in s.owner && s.owner[x.page] == t)
    ensures CanReturn(s, t, x) && x.page in s.owner && s.owner[x.page] == t
  {
    hide SlotsPerPage;
    assert WellFormed(s.slabs[t]);
  }

  lemma ReturnKeeps(s: State, b: Book, t: nat, x: Slot, w: Word, pc: Pc, chain: seq<Slot>, s': State)
    requires Inv(s, b) && t < |s.pcs| && CanReturn(s, t, x) && Returning(s, b, t, x, pc, chain)
    requires s' == At(Returned(s, t, x, w), t, pc)
    ensures Inv(s', Book(b.place[x := FreeOnPage], b.stacks, b.chains[t := chain]))
  {
    hide Addressed, ChainAt, LinkedAs, SlotsPerPage, WellFormed, DistinctSlots, HasPartial, ThreadOk, SlotOk, Push;
    AddressedStill(s, s');
    var b' := Book(b.place[x := FreeOnPage], b.stacks, b.chains[t := chain]);
    var r := Push(s.slabs[t], x.page, x.idx);
    assert WellFormed(s.slabs[t]);
    PushKeepsWellFormed(s.slabs[t], x.page, x.idx);
    SlabReplaced(s, t, r, s');
    FreeIsLegal(s, b, t);
    ReturnThread(s, b, t, x, w, pc, chain, s');
    forall u, y | 0 <= u < |s.pcs| && u != t && y in b.place && Concerns(s, b, u, y)
      && (b.place[y] == Stacked(u) || b.place[y] == Draining(u) || b.place[y] == InFlight(u))
      ensures y != x
    {
    }
    OtherThreads(s, b, s', b', t);
    assert SlotsOk(s', b') by {
      forall y | y in b'.place ensures SlotOk(s', b', y) {
        SlotPlaced(s, b, y);
        ReturnSlot(s, b, t, x, w, pc, chain, s', y);
      }
      assert x !in s.held;
    }
  }

  lemma ReturnThread(s: State, b: Book, t: nat, x: Slot, w: Word, pc: Pc, chain: seq<Slot>, s': State)
    requires Sized(s, b) && t < |s.pcs| && CanReturn(s, t, x) && Returning(s, b, t, x, pc, chain) && ThreadOk(s, b, t)
    requires s' == At(Returned(s, t, x, w), t, pc)
    ensures x in b.place && (b.place[x] == Draining(t) || b.place[x] == InFlight(t))
    ensures ThreadOk(s', Book(b.place[x := FreeOnPage], b.stacks, b.chains[t := chain]), t)
  {
    hide LinkedAs, SlotsPerPage, HasPartial, Push;
    if s.pcs[t].DrainFree? {
      var c := b.chains[t];
      assert c == [x] + c[1..] && x !in c[1..] && x in c;
      assert forall y :: y in c[1..] ==> y in c;
      assert DistinctSlots(c[1..]);
      LinkedFrame(s.words, s'.words, s.pcs[t].next, c[1..]);
    }
    assert x !in b.stacks[t];
    LinkedFrame(s.words, s'.words, s.stacks[t], b.stacks[t]);
  }

  lemma ReturnSlot(s: State, b: Book, t: nat, x: Slot, w: Word, pc: Pc, chain: seq<Slot>, s': State, y: Slot)
    requires Sized(s, b) && t < |s.pcs| && CanReturn(s, t, x) && Returning(s, b, t, x, pc, chain) && ThreadOk(s, b, t)
    requires s' == At(Returned(s, t, x, w), t, pc)
    requires x in b.place && (b.place[x] == Draining(t) || b.place[x] == InFlight(t))
    requires SlotOk(s, b, x) && s.owner[x.page] == t
    requires y in b.place && SlotOk(s, b, y) && IsSlot(s', y)
    requires forall q, j :: IsFreeSlot(s'.slabs[t], q, j) <==> IsFreeSlot(s.slabs[t], q, j) || (q == x.page && j == x.idx)
    ensures SlotOk(s', Book(b.place[x := FreeOnPage], b.stacks, b.chains[t := chain]), y)
  {
    hide LinkedAs, SlotsPerPage, HasPartial, Push, PcOk, DistinctSlots;
    if s.pcs[t].DrainFree? {
      assert b.chains[t] == [x] + b.chains[t][1..];
      assert y in b.chains[t] && y != x ==> y in b.chains[t][1..];
    }
  }

  /** alloc from a partial page: the slot was free on its page, so it was in nobody's hands, on no
      stack, in no chain and in no push. */
  lemma TakeKeeps(s: State, b: Book, t: nat, class_: nat, pc: Pc, s': State)
    requires Inv(s, b) && t < |s.pcs| && class_ < NUM_SIZE_CLASSES && HasPartial(s.slabs[t], class_)
    requires (s.pcs[t].AllocFast? && pc == Idle) || (s.pcs[t].AllocSlow? && pc == AllocUnlock)
    requires s' == At(Taken(s, t, s.slabs[t], class_), t, pc)
    ensures var (p, i, r) := Pop(s.slabs[t], class_);
      && Slot(p, i) in b.place && b.place[Slot(p, i)] == FreeOnPage && Slot(p, i) !in s.held
      && s.owner[p] == t
      && Inv(s', b.(place := b.place[Slot(p, i) := Held]))
  {
    hide Addressed, ChainAt, LinkedAs, SlotsPerPage, WellFormed, DistinctSlots, HasPartial, ThreadOk, SlotOk, Pop;
    AddressedStill(s, s');
    var (p, i, r) := Pop(s.slabs[t], class_);
    var x, b' := Slot(p, i), b.(place := b.place[Slot(p, i) := Held]);
    assert WellFormed(s.slabs[t]);
    PopKeepsWellFormed(s.slabs[t], class_);
    SlabReplaced(s, t, r, s');
    FreeSlotPlaced(s, b, t, x);
    TakeThread(s, b, t, x, pc, s');
    OtherThreads(s, b, s', b', t);
    assert SlotsOk(s', b') by {
      forall y | y in b'.place ensures SlotOk(s', b', y) {
        SlotPlaced(s, b, y);
        TakeSlot(s, b, t, x, pc, s', y);
      }
    }
  }

  lemma FreeSlotPlaced(s: State, b: Book, t: nat, x: Slot)
    requires Owned(s) && SlotsOk(s, b) && t < |s.slabs| && IsFreeSlot(s.slabs[t], x.page, x.idx)
    ensures x in b.place && b.place[x] == FreeOnPage && x !in s.held && x.page in s.owner && s.owner[x.page] == t
  {
    hide SlotsPerPage;
    assert PageOk(s.slabs[t].pages[x.page]);
    assert IsSlot(s, x);
    assert SlotOk(s, b, x);
  }

  lemma TakeThread(s: State, b: Book, t: nat, x: Slot, pc: Pc, s': State)
    requires Sized(s, b) && Sized(s', b) && t < |s.pcs| && ThreadOk(s, b, t) && x in b.place && b.place[x] == FreeOnPage
    requires (s.pcs[t].AllocFast? && pc == Idle) || (s.pcs[t].AllocSlow? && pc == AllocUnlock)
    requires s'.pcs == s.pcs[t := pc] && s'.stacks == s.stacks && s'.words == s.words && s'.lock == s.lock
    ensures ThreadOk(s', b.(place := b.place[x := Held]), t)
  {
    hide LinkedAs, DistinctSlots;
  }

  lemma TakeSlot(s: State, b: Book, t: nat, x: Slot, pc: Pc, s': State, y: Slot)
    requires Sized(s, b) && Sized(s', b) && t < |s.pcs| && x in b.place && b.place[x] == FreeOnPage
    requires s'.pcs == s.pcs[t := pc] && Carried(pc) == Carried(s.pcs[t]) && s'.owner == s.owner
    requires s'.held == s.held + {x} && x.page in s.owner && s.owner[x.page] == t
    requires s'.slabs == s.slabs[t := s'.slabs[t]]
    requires y in b.place && SlotOk(s, b, y) && SlotOk(s, b, x) && IsSlot(s', y)
    requires forall q, j :: IsFreeSlot(s'.slabs[t], q, j) <==> IsFreeSlot(s.slabs[t], q, j) && !(q == x.page && j == x.idx)
    ensures SlotOk(s', b.(place := b.place[x := Held]), y)
  {
    hide SlotsPerPage;
  }

  /** A new page: its slots appear, all free on it. */
  ghost predicate Grown(s: State, t: nat, class_: nat, memory: map<Slot, Word>, s': State)
    requires t < |s.slabs|
  {
    var p := s.nextFreePage;
    && class_ < NUM_SIZE_CLASSES == |s.slabs[t].partials|
    && SameElsewhere(s.words, memory, p)
    && s' == s.(nextFreePage := p + 1, owner := s.owner[p := t],
                pageAddr := s.pageAddr[p := PageAddr(s.base, p)], words := memory,
                slabs := s.slabs[t := AddPage(s.slabs[t], p, class_)])
  }

  lemma GrowKeeps(s: State, b: Book, t: nat, class_: nat, memory: map<Slot, Word>, s': State)
    requires Inv(s, b) && t < |s.pcs| && s.pcs[t] == AllocSlow(class_) && Grown(s, t, class_, memory, s')
    requires !HasPartial(s.slabs[t], class_)
    ensures HasPartial(s'.slabs[t], class_) && PoppedSlot(s'.slabs[t], class_) == Slot(s.nextFreePage, 0)
    ensures Inv(s', b.(place := FreshPlaces(b.place, s.nextFreePage, class_)))
  {
    hide Addressed, ChainAt, LinkedAs, SlotsPerPage, WellFormed, DistinctSlots, ThreadOk, SlotOk, FreshPlaces;
    GrowAddressed(s, t, s');
    var p, b' := s.nextFreePage, b.(place := FreshPlaces(b.place, s.nextFreePage, class_));
    NewPageUnowned(s, t);
    NewPageFacts(s.slabs[t], p, class_);
    GrowOwned(s, t, class_, s'.slabs[t], s');
    FreshPlacesFacts(b.place, p, class_);
    assert forall x :: x in b.place ==> x.page != p by {
      forall x | x in b.place ensures x.page != p { SlotPlaced(s, b, x); }
    }
    forall x | x in b.place ensures Read(s'.words, x) == Read(s.words, x) {}
    OldThreads(s, b, s', b', t);
    assert SlotsOk(s', b') by {
      hide AddPage;
      forall y | y in b'.place ensures SlotOk(s', b', y) {
        if y in b.place { SlotPlaced(s, b, y); }
        GrowSlot(s, b, t, class_, memory, s', y);
      }
      assert forall x :: x in s.held ==> x in b'.place && b'.place[x] == Held;
    }
  }

  lemma FreshPlacesFacts(place: map<Slot, Place>, p: nat, class_: nat)
    requires class_ < NUM_SIZE_CLASSES
    ensures var q := FreshPlaces(place, p, class_);
      && (forall x :: x in q <==> x in place || (x.page == p && x.idx < SlotsPerPage(class_)))
      && (forall x :: x in q ==> q[x] == if x.page == p && x.idx < SlotsPerPage(class_) then FreeOnPage else place[x])
  {
    var all := set i | i in Upto(SlotsPerPage(class_)) :: Slot(p, i);
    forall x: Slot ensures x in all <==> x.page == p && x.idx < SlotsPerPage(class_) {
      if x.page == p && x.idx < SlotsPerPage(class_) {
        assert Upto(SlotsPerPage(class_))[x.idx] == x.idx;
        assert x == Slot(p, x.idx);
      }
    }
  }

  lemma GrowOwned(s: State, t: nat, class_: nat, r: Slab, s': State)
    requires Owned(s) && t < |s.slabs| && s.nextFreePage !in s.owner && class_ < NUM_SIZE_CLASSES
    requires s'.slabs == s.slabs[t := r] && s'.owner == s.owner[s.nextFreePage := t]
    requires s'.nextFreePage == s.nextFreePage + 1
    requires WellFormed(r) && forall q :: q in r.pages <==> q in s.slabs[t].pages || q == s.nextFreePage
    requires r.pages[s.nextFreePage].class_ == class_
    requires forall q :: q in s.slabs[t].pages ==> r.pages[q] == s.slabs[t].pages[q]
    ensures Owned(s')
    ensures forall x :: IsSlot(s', x) <==> IsSlot(s, x) || (x.page == s.nextFreePage && x.idx < SlotsPerPage(class_))
  {
    hide SlotsPerPage, WellFormed;
    assert Owned(s') by { hide IsSlot; }
    forall x
      ensures IsSlot(s', x) <==> IsSlot(s, x) || (x.page == s.nextFreePage && x.idx < SlotsPerPage(class_))
    {
      GrowIsSlot(s, t, class_, r, s', x);
    }
  }

  lemma GrowIsSlot(s: State, t: nat, class_: nat, r: Slab, s': State, x: Slot)
    requires t < |s.slabs| && s.nextFreePage !in s.owner && class_ < NUM_SIZE_CLASSES
    requires s'.slabs == s.slabs[t := r] && s'.owner == s.owner[s.nextFreePage := t]
    requires forall q :: q in r.pages <==> q in s.slabs[t].pages || q == s.nextFreePage
    requires r.pages[s.nextFreePage].class_ == class_
    requires forall q :: q in s.slabs[t].pages ==> r.pages[q] == s.slabs[t].pages[q]
    ensures IsSlot(s', x) <==> IsSlot(s, x) || (x.page == s.nextFreePage && x.idx < SlotsPerPage(class_))
  {
    hide SlotsPerPage;
  }

  lemma AddressedStill(s: State, s': State)
    requires Addressed(s) && s'.owner == s.owner && s'.pageAddr == s.pageAddr && s'.base == s.base
    ensures Addressed(s')
  {
  }

  lemma GrowAddressed(s: State, t: nat, s': State)
    requires Addressed(s) && s'.owner == s.owner[s.nextFreePage := t] && s'.base == s.base
    requires s'.pageAddr == s.pageAddr[s.nextFreePage := PageAddr(s.base, s.nextFreePage)]
    ensures Addressed(s')
  {
    hide PageAddr;
  }

  lemma NewPageUnowned(s: State, t: nat)
    requires Owned(s) && t < |s.slabs|
    ensures s.nextFreePage !in s.owner && s.nextFreePage !in s.slabs[t].pages && WellFormed(s.slabs[t])
  {
    assert s.nextFreePage in s.slabs[t].pages ==> s.nextFreePage in s.owner;
  }

  lemma NewPageFacts(s: Slab, p: nat, class_: nat)
    requires WellFormed(s) && p !in s.pages && class_ < NUM_SIZE_CLASSES && !HasPartial(s, class_)
    ensures class_ < |s.partials|
    ensures var r := AddPage(s, p, class_);
      && WellFormed(r) && HasPartial(r, class_) && PoppedSlot(r, class_) == Slot(p, 0)
      && r.pages.Keys == s.pages.Keys + {p} && r.pages[p].class_ == class_
      && (forall q :: q in s.pages ==> r.pages[q] == s.pages[q])
      && (forall i: nat :: IsFreeSlot(r, p, i) <==> i < SlotsPerPage(class_))
      && (forall q, i: nat :: q != p ==> (IsFreeSlot(r, q, i) <==> IsFreeSlot(s, q, i)))
  {
    hide SlotsPerPage;
    NoPartialMeansEmpty(s, class_);
    AddPageKeepsWellFormed(s, p, class_);
    hide WellFormed;
  }

  /** Every thread, when a step leaves all program counters, stacks and known places alone. */
  lemma OldThreads(s: State, b: Book, s': State, b': Book, t: nat)
    requires ThreadsOk(s, b) && Sized(s', b') && t < |s.pcs|
    requires s'.pcs == s.pcs && s'.stacks == s.stacks && s'.lock == s.lock && !s.pcs[t].AllocFast?
    requires b'.stacks == b.stacks && b'.chains == b.chains
    requires forall u :: 0 <= u < |s.pcs| && u != t ==> s'.slabs[u] == s.slabs[u]
    requires forall x :: x in b.place ==> Read(s'.words, x) == Read(s.words, x) && x in b'.place && b'.place[x] == b.place[x]
    requires forall p :: p in s.owner ==> p in s'.owner && s'.owner[p] == s.owner[p]
    ensures ThreadsOk(s', b')
  {
    hide ThreadOk, Read;
    OtherThreads(s, b, s', b', t);
    var s1 := s'.(slabs := s.slabs);
    forall x | Concerns(s, b, t, x) ensures x in b.place { ConcernPlace(s, b, t, x); }
    ThreadStill(s, b, s1, b', t);
    SlabsAside(s1, s', b', t);
  }

  lemma SlabsAside(s: State, s': State, b: Book, t: nat)
    requires Sized(s, b) && Sized(s', b) && t < |s.pcs| && ThreadOk(s, b, t) && !s.pcs[t].AllocFast?
    requires s == s'.(slabs := s.slabs)
    ensures ThreadOk(s', b, t)
  {
    hide LinkedAs, DistinctSlots;
  }

  lemma GrowSlot(s: State, b: Book, t: nat, class_: nat, memory: map<Slot, Word>, s': State, y: Slot)
    requires Sized(s, b) && t < |s.pcs| && Grown(s, t, class_, memory, s') && s.nextFreePage !in s.owner
    requires y in FreshPlaces(b.place, s.nextFreePage, class_) && IsSlot(s', y)
    requires y in b.place || (y.page == s.nextFreePage && y.idx < SlotsPerPage(class_))
    requires FreshPlaces(b.place, s.nextFreePage, class_)[y] ==
             if y.page == s.nextFreePage && y.idx < SlotsPerPage(class_) then FreeOnPage else b.place[y]
    requires y in b.place ==> SlotOk(s, b, y)
    requires forall x :: x in s.held ==> x in b.place
    requires forall x :: x in b.place ==> x.page != s.nextFreePage
    requires forall i: nat :: IsFreeSlot(s'.slabs[t], s.nextFreePage, i) <==> i < SlotsPerPage(class_)
    requires forall q, i: nat :: q != s.nextFreePage ==> (IsFreeSlot(s'.slabs[t], q, i) <==> IsFreeSlot(s.slabs[t], q, i))
    ensures SlotOk(s', b.(place := FreshPlaces(b.place, s.nextFreePage, class_)), y)
  {
    hide SlotsPerPage, FreshPlaces, AddPage;
  }

  // ---------------------------------------------------------------------------------------------
  // All steps

  /** alloc from a page the arena has just handed out. */
  lemma NewPageKeeps(s: State, b: Book, t: nat, class_: nat, memory: map<Slot, Word>, s': State)
    requires Inv(s, b) && t < |s.pcs| && s.pcs[t] == AllocSlow(class_) && class_ < NUM_SIZE_CLASSES
    requires Sized(s, b) && |s.slabs[t].partials| == NUM_SIZE_CLASSES && SlowStep(s, t, class_, memory, s')
    requires !HasPartial(s.slabs[t], class_) && s.nextFreePage < PAGES_PER_ARENA
    ensures Inv(s', NextBook(s, b, TakeSlow(t, memory)))
  {
    hide Inv, Pop, AddPage, FreshPlaces, HasPartial, SlotsPerPage;
    var p := s.nextFreePage;
    var s1 := s.(nextFreePage := p + 1, owner := s.owner[p := t],
                 pageAddr := s.pageAddr[p := PageAddr(s.base, p)], words := memory,
                 slabs := s.slabs[t := AddPage(s.slabs[t], p, class_)]);
    var b1 := b.(place := FreshPlaces(b.place, p, class_));
    GrowKeeps(s, b, t, class_, memory, s1);
    assert s' == At(Taken(s1, t, s1.slabs[t], class_), t, AllocUnlock);
    TakeKeeps(s1, b1, t, class_, AllocUnlock, s');
  }

  lemma SlowKeeps(s: State, b: Book, t: nat, class_: nat, memory: map<Slot, Word>, s': State)
    requires Inv(s, b) && t < |s.pcs| && s.pcs[t] == AllocSlow(class_) && class_ < NUM_SIZE_CLASSES
    requires |s.slabs[t].partials| == NUM_SIZE_CLASSES && SlowStep(s, t, class_, memory, s')
    ensures Inv(s', NextBook(s, b, TakeSlow(t, memory)))
  {
    hide Inv, Pop, AddPage, FreshPlaces;
    SizedInv(s, b);
    if HasPartial(s.slabs[t], class_) {
      TakeKeeps(s, b, t, class_, AllocUnlock, s');
    } else if s.nextFreePage < PAGES_PER_ARENA {
      NewPageKeeps(s, b, t, class_, memory, s');
    } else {
      ControlInv(s, b, t);
      ControlKeeps(s, b, t, AllocUnlock, s');
    }
  }

  lemma SizedInv(s: State, b: Book)
    requires Inv(s, b)
    ensures Sized(s, b)
  {
  }

  /** What the control steps of thread t need to know. */
  lemma ControlInv(s: State, b: Book, t: nat)
    requires Inv(s, b) && t < |s.pcs|
    ensures ThreadOk(s, b, t) && Owned(s) && Sized(s, b)
    ensures PcOk(s, t, s.pcs[t]) && ChainAt(s.words, s.pcs[t], b.chains[t])
    ensures InCritical(s.pcs[t]) <==> s.lock == Some(t)
  {
    hide LinkedAs, DistinctSlots, WellFormed;
    assert ThreadOk(s, b, t);
  }

  lemma FrontChain(s: State, b: Book, t: nat)
    requires Inv(s, b) && t < |s.pcs| && s.pcs[t].DrainWalk?
    ensures s.pcs[t].head == Null ==> b.chains[t] == []
    ensures s.pcs[t].head.Ptr? ==>
      ChainAt(s.words, DrainFree(s.pcs[t].class_, s.pcs[t].head.slot, Read(s.words, s.pcs[t].head.slot)), b.chains[t])
  {
    assert ThreadOk(s, b, t);
  }

  /** Steps of a thread inside malloc that only read and move on. */
  lemma MallocStepKeeps(s: State, b: Book, e: Event, s': State)
    requires Inv(s, b) && Step(s, e, s')
    requires e.CallMalloc? || e.LoadOwnStack? || e.Acquire? || e.WalkRead? || e.WalkEnd? || e.Release? || e.CheckPartial?
    ensures Inv(s', b)
  {
    hide Inv, LinkedAs, HasPartial, ThreadOk, Owned, SlowStep, CanReturn, Taken, Returned, IsFreeSlot;
    ControlInv(s, b, e.t);
    var t, pc := e.t, s'.pcs[e.t];
    if e.WalkRead? || e.WalkEnd? { FrontChain(s, b, t); }
    assert s' == At(s.(lock := s'.lock, nextFreePage := s'.nextFreePage), t, pc);
    ControlKeeps(s, b, t, pc, s');
  }

  /** Steps of a thread inside free that only read and move on, and bump allocation. */
  lemma FreeStepKeeps(s: State, b: Book, e: Event, s': State)
    requires Inv(s, b) && Step(s, e, s')
    requires e.Bump? || e.ReadOwner? || e.LoadTarget? || e.CasFail?
    ensures Inv(s', b)
  {
    hide Inv, LinkedAs, HasPartial, ThreadOk, Owned, SlowStep, CanReturn, Taken, Returned, IsFreeSlot;
    ControlInv(s, b, e.t);
    var t, pc := e.t, s'.pcs[e.t];
    assert s' == At(s.(lock := s'.lock, nextFreePage := s'.nextFreePage), t, pc);
    ControlKeeps(s, b, t, pc, s');
  }

  lemma HeldPlace(s: State, b: Book, x: Slot)
    requires Inv(s, b) && x in s.held
    ensures x in b.place && b.place[x] == Held
  {
  }

  lemma CarriedPlace(s: State, b: Book, t: nat)
    requires Inv(s, b) && t < |s.pcs| && Carried(s.pcs[t]).Some?
    ensures Carried(s.pcs[t]).value in b.place && b.place[Carried(s.pcs[t]).value] == InFlight(t)
  {
    hide LinkedAs;
    assert ThreadOk(s, b, t);
  }

  lemma MemoryStepKeeps(s: State, b: Book, e: Event, s': State)
    requires Inv(s, b) && Step(s, e, s')
    requires e.WriteNext? || e.UserWrite? || e.Swap? || e.CasOk? || e.CallFree?
    ensures Inv(s', NextBook(s, b, e))
  {
    hide Inv, LinkedAs, HasPartial;
    ControlInv(s, b, e.t);
    var t, pc := e.t, s.pcs[e.t];
    match e
    case WriteNext(_) =>
      CarriedPlace(s, b, t);
      WordKeeps(s, b, t, pc.ptr, pc.head, s'.pcs[t], s');
    case UserWrite(_, x, w) =>
      HeldPlace(s, b, x);
      assert s' == At(s.(words := s.words[x := w]), t, pc);
      WordKeeps(s, b, t, x, w, pc, s');
    case Swap(_) => SwapKeeps(s, b, t, pc.class_, s');
    case CasOk(_) => CasOkKeeps(s, b, t, pc.ptr, pc.target, s');
    case CallFree(_, x) => CallFreeKeeps(s, b, t, x, s');
  }

  lemma DrainingChain(s: State, b: Book, t: nat)
    requires Inv(s, b) && t < |s.pcs|
    ensures s.pcs[t].DrainFree? ==> b.chains[t] != [] && b.chains[t][0] == s.pcs[t].node
  {
    assert ThreadOk(s, b, t);
  }

  lemma SlabStepKeeps(s: State, b: Book, e: Event, s': State)
    requires Inv(s, b) && Step(s, e, s')
    requires e.WalkFree? || e.LocalFree? || e.TakeFast? || e.TakeSlow?
    ensures Inv(s', NextBook(s, b, e))
  {
    hide Inv, LinkedAs, HasPartial, Push, Pop, SlowStep, ThreadOk, Owned, IsUsedSlot;
    ControlInv(s, b, e.t);
    var t, pc := e.t, s.pcs[e.t];
    match e
    case WalkFree(_, w) =>
      DrainingChain(s, b, t);
      ReturnKeeps(s, b, t, pc.node, w, s'.pcs[t], b.chains[t][1..], s');
    case LocalFree(_, w) =>
      ReturnKeeps(s, b, t, pc.ptr, w, Idle, b.chains[t], s');
      assert b.chains[t := b.chains[t]] == b.chains;
    case TakeFast(_) => TakeKeeps(s, b, t, pc.class_, Idle, s');
    case TakeSlow(_, memory) => SlowKeeps(s, b, t, pc.class_, memory, s');
  }

  /** Every step of every thread keeps the invariant. */
  lemma StepKeeps(s: State, b: Book, e: Event, s': State)
    requires Inv(s, b) && Step(s, e, s')
    ensures Sized(s, b) && Inv(s', NextBook(s, b, e))
  {
    hide Inv, Step;
    SizedInv(s, b);
    match e
    case CallMalloc(_, _) => MallocStepKeeps(s, b, e, s');
    case LoadOwnStack(_) => MallocStepKeeps(s, b, e, s');
    case Acquire(_) => MallocStepKeeps(s, b, e, s');
    case WalkRead(_) => MallocStepKeeps(s, b, e, s');
    case WalkEnd(_) => MallocStepKeeps(s, b, e, s');
    case Release(_) => MallocStepKeeps(s, b, e, s');
    case CheckPartial(_) => MallocStepKeeps(s, b, e, s');
    case Bump(_, _) => FreeStepKeeps(s, b, e, s');
    case ReadOwner(_) => FreeStepKeeps(s, b, e, s');
    case LoadTarget(_) => FreeStepKeeps(s, b, e, s');
    case CasFail(_) => FreeStepKeeps(s, b, e, s');
    case WriteNext(_) => MemoryStepKeeps(s, b, e, s');
    case UserWrite(_, _, _) => MemoryStepKeeps(s, b, e, s');
    case Swap(_) => MemoryStepKeeps(s, b, e, s');
    case CasOk(_) => MemoryStepKeeps(s, b, e, s');
    case CallFree(_, _) => MemoryStepKeeps(s, b, e, s');
    case WalkFree(_, _) => SlabStepKeeps(s, b, e, s');
    case LocalFree(_, _) => SlabStepKeeps(s, b, e, s');
    case TakeFast(_) => SlabStepKeeps(s, b, e, s');
    case TakeSlow(_, _) => SlabStepKeeps(s, b, e, s');
  }
}
