/** What the calls of one thread achieve over whole runs of all threads: malloc drains what it finds on
    its stack and takes no lock it does not need, a push fails only because another thread succeeds,
    and every call ends when its thread runs alone. */
module RemoteFreeRuns {
  import opened Lists
  import opened SizeClass
  import opened AbstractSlab
  import opened ArenaLayout
  import opened RemoteFree
  import opened RemoteFreeProofs
  import opened RemoteFreeTheorems

  predicate Takes(e: Event, t: nat) {
    (e.TakeFast? || e.TakeSlow?) && e.t == t
  }

  /** A step leaves the other threads' program counters and slabs alone. */
  lemma OthersStill(s: State, e: Event, s': State, t: nat)
    requires Step(s, e, s') && t < |s.pcs| && e.t != t
    ensures |s'.pcs| == |s.pcs| == |s.slabs| == |s'.slabs| && s'.pcs[t] == s.pcs[t] && s'.slabs[t] == s.slabs[t]
  {
    if e.TakeSlow? {
      SlowOthersStill(s, e, s', t);
    } else {
      hide HasPartial, Pop, Push, CanReturn, SlowStep;
    }
  }

  lemma SlowOthersStill(s: State, e: Event, s': State, t: nat)
    requires Step(s, e, s') && t < |s.pcs| && e.t != t && e.TakeSlow?
    ensures |s'.pcs| == |s.pcs| == |s.slabs| == |s'.slabs| && s'.pcs[t] == s.pcs[t] && s'.slabs[t] == s.slabs[t]
  {
    hide HasPartial, Pop, AddPage, SameElsewhere;
  }

  // ---------------------------------------------------------------------------------------------
  // malloc drains

  predicate BeforeSwap(pc: Pc) {
    pc.DrainLock? || pc.DrainSwap?
  }

  /** A thread on its way to the swap gets there before it takes a slot. */
  lemma BeforeSwapStep(s: State, e: Event, s': State, t: nat)
    requires Step(s, e, s') && t < |s.pcs| && BeforeSwap(s.pcs[t])
    ensures !Takes(e, t) && t < |s'.pcs| && (e != Swap(t) ==> BeforeSwap(s'.pcs[t]))
  {
    if e.t != t { OthersStill(s, e, s', t); }
    hide HasPartial, Pop, Push, SlowStep, CanReturn;
  }

  /** A malloc that finds its stack non-empty goes for the lock. */
  lemma LoadNonEmpty(s: State, s': State, t: nat)
    requires Step(s, LoadOwnStack(t), s') && t < |s.stacks| && s.stacks[t] != Null
    ensures t < |s'.pcs| && BeforeSwap(s'.pcs[t])
  {
  }

  lemma {:induction false} SwapComes(ss: seq<State>, es: seq<Event>, n: nat, i: nat, j: nat, t: nat) returns (k: nat)
    requires Run(ss, es, n) && i <= j < |es| && Takes(es[j], t)
    requires t < |ss[i].pcs| && BeforeSwap(ss[i].pcs[t])
    ensures i <= k < j && es[k] == Swap(t) && forall m :: i <= m < k ==> es[m] != Swap(t)
    decreases j - i
  {
    hide Step, BeforeSwap;
    BeforeSwapStep(ss[i], es[i], ss[i + 1], t);
    if es[i] == Swap(t) {
      k := i;
    } else {
      k := SwapComes(ss, es, n, i + 1, j, t);
    }
  }

  /** While its owner does not swap, a stacked slot stays stacked. */
  lemma {:induction false} StaysStacked(ss: seq<State>, es: seq<Event>, n: nat, i: nat, k: nat, t: nat, x: Slot)
    requires Run(ss, es, n) && i <= k < |ss| && IsSlot(ss[i], x) && OnlyAt(ss[i], x, Stacked(t))
    requires forall m :: i <= m < k ==> es[m] != Swap(t)
    ensures IsSlot(ss[k], x) && OnlyAt(ss[k], x, Stacked(t))
    decreases k - i
  {
    hide Step, Start, IsSlot, FoundAt;
    if i < k {
      var p, q := RunMoves(ss, es, n, i, x);
      OnePlaceOnly(ss[i], x, p, Stacked(t));
      StackedNext(ss[i], es[i], x, t, q);
      StaysStacked(ss, es, n, i + 1, k, t, x);
    }
  }

  lemma OnePlaceOnly(s: State, x: Slot, p: Place, q: Place)
    requires OnlyAt(s, x, p) && OnlyAt(s, x, q)
    ensures p == q
  {
    hide FoundAt;
  }

  /** A stacked slot stays, or is detached by its owner's swap. */
  lemma StackedNext(s: State, e: Event, x: Slot, t: nat, q: Place)
    requires e.t < |s.pcs| == |s.slabs| && q == NextPlace(s, e, x, Stacked(t)) && Moves(Stacked(t), q, e.t)
    ensures q == if e == Swap(t) then Draining(t) else Stacked(t)
  {
    hide Chosen;
  }

  /** A slot being drained stays, or is freed by its owner's walk. */
  lemma DrainingNext(s: State, e: Event, x: Slot, t: nat, q: Place)
    requires e.t < |s.pcs| == |s.slabs| && q == NextPlace(s, e, x, Draining(t)) && Moves(Draining(t), q, e.t)
    requires OnlyAt(s, x, Draining(t))
    ensures q == Draining(t) || (e.WalkFree? && e.t == t && s.pcs[t].DrainFree? && s.pcs[t].node == x)
  {
    hide Chosen;
    if e.LocalFree? && e.t == t && s.pcs[t] == FreeLocal(x) {
      CarriedIsFound(s, x, t);
    }
  }

  lemma CarriedIsFound(s: State, x: Slot, t: nat)
    requires t < |s.pcs| && s.pcs[t] == FreeLocal(x)
    ensures FoundAt(s, x, InFlight(t))
  {
  }

  /** Thread t frees slot x in its walk. */
  predicate WalksOver(s: State, e: Event, t: nat, x: Slot) {
    e.WalkFree? && e.t == t < |s.pcs| && s.pcs[t].DrainFree? && s.pcs[t].node == x
  }

  /** A slot in a detached chain is walked over before the thread takes its next slot. */
  lemma {:induction false} WalkComes(ss: seq<State>, es: seq<Event>, n: nat, i: nat, j: nat, t: nat, x: Slot)
    returns (m: nat)
    requires Run(ss, es, n) && i <= j < |es| && Takes(es[j], t)
    requires IsSlot(ss[i], x) && OnlyAt(ss[i], x, Draining(t))
    ensures i <= m < j && WalksOver(ss[m], es[m], t, x)
    decreases j - i
  {
    hide Step, Start, IsSlot, FoundAt;
    if i == j {
      TakesFromNoChain(ss[j], es[j], ss[j + 1], t, x);
    } else {
      var p, q := RunMoves(ss, es, n, i, x);
      OnePlaceOnly(ss[i], x, p, Draining(t));
      DrainingNext(ss[i], es[i], x, t, q);
      if q == Draining(t) && !WalksOver(ss[i], es[i], t, x) {
        m := WalkComes(ss, es, n, i + 1, j, t, x);
      } else {
        m := i;
      }
    }
  }

  lemma TakesFromNoChain(s: State, e: Event, s': State, t: nat, x: Slot)
    requires Step(s, e, s') && Takes(e, t)
    ensures !FoundAt(s, x, Draining(t))
  {
    hide HasPartial, SlowStep, LinkedAs;
  }

  /** A malloc that finds its remote stack non-empty drains it before it takes a slot: between the load
      and the take the thread detaches the stack, and hands every slot that was on it back to its slab. */
  lemma MallocDrains(ss: seq<State>, es: seq<Event>, n: nat, i: nat, j: nat, t: nat) returns (k: nat)
    requires Run(ss, es, n) && i < j < |es| && es[i] == LoadOwnStack(t) && Takes(es[j], t)
    requires t < |ss[i].stacks| && ss[i].stacks[t] != Null
    ensures i < k < j && es[k] == Swap(t)
    ensures forall x :: IsSlot(ss[i], x) && FoundAt(ss[i], x, Stacked(t)) ==>
              exists m :: k < m < j && WalksOver(ss[m], es[m], t, x)
  {
    hide Step, Start, IsSlot, FoundAt, WalksOver;
    LoadNonEmpty(ss[i], ss[i + 1], t);
    k := SwapComes(ss, es, n, i + 1, j, t);
    forall x | IsSlot(ss[i], x) && FoundAt(ss[i], x, Stacked(t))
      ensures exists m :: k < m < j && WalksOver(ss[m], es[m], t, x)
    {
      var m := StackedIsWalked(ss, es, n, i, k, j, t, x);
    }
  }

  lemma StackedIsWalked(ss: seq<State>, es: seq<Event>, n: nat, i: nat, k: nat, j: nat, t: nat, x: Slot)
    returns (m: nat)
    requires Run(ss, es, n) && i < k < j < |es| && es[i] == LoadOwnStack(t) && es[k] == Swap(t) && Takes(es[j], t)
    requires forall l :: i < l < k ==> es[l] != Swap(t)
    requires IsSlot(ss[i], x) && FoundAt(ss[i], x, Stacked(t))
    ensures k < m < j && WalksOver(ss[m], es[m], t, x)
  {
    hide Step, Start, IsSlot, FoundAt, WalksOver;
    var p0, q0 := RunMoves(ss, es, n, i, x);
    assert p0 == Stacked(t);
    StaysStacked(ss, es, n, i, k, t, x);
    var p, q := RunMoves(ss, es, n, k, x);
    OnePlaceOnly(ss[k], x, p, Stacked(t));
    StackedNext(ss[k], es[k], x, t, q);
    m := WalkComes(ss, es, n, k + 1, j, t, x);
  }

  // ---------------------------------------------------------------------------------------------
  // malloc takes no lock it does not need

  /** On the lock-free path: the slab has a partial page of the class, and the stack was empty. */
  predicate OnFastPath(s: State, t: nat, class_: nat) {
    t < |s.pcs| && t < |s.slabs| && HasPartial(s.slabs[t], class_)
    && (s.pcs[t] == AllocCheck(class_) || s.pcs[t] == AllocFast(class_))
  }

  lemma FastPathStep(s: State, e: Event, s': State, t: nat, class_: nat)
    requires Step(s, e, s') && OnFastPath(s, t, class_)
    ensures e != Acquire(t) && !(e.TakeSlow? && e.t == t)
    ensures !Takes(e, t) ==> OnFastPath(s', t, class_)
  {
    if e.t != t { OthersStill(s, e, s', t); }
    hide HasPartial, Pop, Push, SlowStep, CanReturn;
  }

  lemma {:induction false} FastPathRun(ss: seq<State>, es: seq<Event>, n: nat, i: nat, j: nat, t: nat, class_: nat)
    requires Run(ss, es, n) && i <= j < |es| && Takes(es[j], t) && OnFastPath(ss[i], t, class_)
    requires forall m :: i <= m < j ==> !Takes(es[m], t)
    ensures es[j].TakeFast? && forall m :: i <= m < j ==> es[m] != Acquire(t)
    decreases j - i
  {
    hide Step, OnFastPath;
    FastPathStep(ss[i], es[i], ss[i + 1], t, class_);
    if i < j {
      FastPathRun(ss, es, n, i + 1, j, t, class_);
    }
  }

  /** A malloc that finds its stack empty and its slab with a free slot of the class takes that slot
      without touching the lock, whatever the other threads do. */
  lemma MallocLockFree(ss: seq<State>, es: seq<Event>, n: nat, i: nat, j: nat, t: nat)
    requires Run(ss, es, n) && i < j < |es| && es[i] == LoadOwnStack(t) && Takes(es[j], t)
    requires forall m :: i < m < j ==> !Takes(es[m], t)
    requires t < |ss[i].stacks| == |ss[i].slabs| == |ss[i].pcs| && ss[i].stacks[t] == Null
    requires ss[i].pcs[t].MallocLoad? && HasPartial(ss[i].slabs[t], ss[i].pcs[t].class_)
    ensures es[j].TakeFast? && forall m :: i < m < j ==> es[m] != Acquire(t)
  {
    hide HasPartial;
    var class_ := ss[i].pcs[t].class_;
    assert OnFastPath(ss[i + 1], t, class_);
    FastPathRun(ss, es, n, i + 1, j, t, class_);
  }

  // ---------------------------------------------------------------------------------------------
  // malloc takes a slot of the class it was called for

  predicate InMalloc(pc: Pc, class_: nat) {
    match pc
    case MallocLoad(c) => c == class_
    case DrainLock(c) => c == class_
    case DrainSwap(c) => c == class_
    case DrainWalk(c, _) => c == class_
    case DrainFree(c, _, _) => c == class_
    case DrainUnlock(c) => c == class_
    case AllocCheck(c) => c == class_
    case AllocFast(c) => c == class_
    case AllocLock(c) => c == class_
    case AllocSlow(c) => c == class_
    case _ => false
  }

  lemma InMallocStep(s: State, e: Event, s': State, t: nat, class_: nat)
    requires Step(s, e, s') && t < |s.pcs| && InMalloc(s.pcs[t], class_) && !Takes(e, t)
    ensures t < |s'.pcs| && InMalloc(s'.pcs[t], class_)
  {
    if e.t != t { OthersStill(s, e, s', t); }
    hide HasPartial, Pop, Push, SlowStep, CanReturn;
  }

  lemma {:induction false} InMallocRun(ss: seq<State>, es: seq<Event>, n: nat, i: nat, j: nat, t: nat, class_: nat)
    requires Run(ss, es, n) && i <= j < |ss| && t < |ss[i].pcs| && InMalloc(ss[i].pcs[t], class_)
    requires forall m :: i <= m < j ==> !Takes(es[m], t)
    ensures t < |ss[j].pcs| && InMalloc(ss[j].pcs[t], class_)
    decreases j - i
  {
    hide Step, InMalloc;
    if i < j {
      InMallocStep(ss[i], es[i], ss[i + 1], t, class_);
      InMallocRun(ss, es, n, i + 1, j, t, class_);
    }
  }

  /** Taking a slot for class c: it lies on a page of that class, on the thread's own slab. */
  lemma TakenClass(s: State, b: Book, e: Event, s': State)
    requires Inv(s, b) && Step(s, e, s') && (e.TakeFast? || e.TakeSlow?)
    ensures e.t < |s.pcs| == |s.slabs| == |s'.slabs| && (s.pcs[e.t].AllocFast? || s.pcs[e.t].AllocSlow?)
    ensures Chosen(s, e.t).Some? ==>
      var p := Chosen(s, e.t).value.page;
      p in s'.slabs[e.t].pages && s'.slabs[e.t].pages[p].class_ == s.pcs[e.t].class_
  {
    hide Inv, Pop, AddPage, HasPartial, SlotsPerPage, WellFormed;
    var t := e.t;
    StepFacts(s, b, t);
    var slab, c := s.slabs[t], s.pcs[t].class_;
    if HasPartial(slab, c) {
      PopKeepsWellFormed(slab, c);
      PopSamePages(slab, c);
    } else if e.TakeSlow? && s.nextFreePage < PAGES_PER_ARENA {
      NewPageUnownedInv(s, b, t);
      NewPageFacts(slab, s.nextFreePage, c);
      PopKeepsWellFormed(AddPage(slab, s.nextFreePage, c), c);
      PopSamePages(AddPage(slab, s.nextFreePage, c), c);
    }
  }

  /** malloc for a class takes a slot of that class. */
  lemma MallocTakesItsClass(ss: seq<State>, es: seq<Event>, n: nat, i: nat, j: nat, t: nat, class_: nat)
    requires Run(ss, es, n) && i < j < |es| && es[i] == CallMalloc(t, class_) && Takes(es[j], t)
    requires forall m :: i < m < j ==> !Takes(es[m], t)
    ensures t < |ss[j].pcs| == |ss[j].slabs| == |ss[j + 1].slabs|
    ensures (ss[j].pcs[t].AllocFast? || ss[j].pcs[t].AllocSlow?) && ss[j].pcs[t].class_ == class_
    ensures Chosen(ss[j], t).Some? ==>
      var p := Chosen(ss[j], t).value.page;
      p in ss[j + 1].slabs[t].pages && ss[j + 1].slabs[t].pages[p].class_ == class_
  {
    hide Inv;
    assert InMalloc(ss[i + 1].pcs[t], class_);
    hide Step;
    InMallocRun(ss, es, n, i + 1, j, t, class_);
    var b := RunInv(ss, es, n, j);
    TakenClass(ss[j], b, es[j], ss[j + 1]);
  }

  // ---------------------------------------------------------------------------------------------
  // A push fails only because somebody else succeeds

  /** The event changes stack u: a successful push on it, or its owner's swap. */
  predicate Changes(s: State, e: Event, u: nat) {
    || e == Swap(u)
    || (e.CasOk? && e.t < |s.pcs| && s.pcs[e.t].PushCas? && s.pcs[e.t].target == u)
  }

  /** Thread t is about to compare stack u with `head`. */
  predicate Compares(s: State, t: nat, u: nat, head: Word) {
    t < |s.pcs| && ((s.pcs[t].PushWrite? && s.pcs[t].target == u && s.pcs[t].head == head)
                 || (s.pcs[t].PushCas? && s.pcs[t].target == u && s.pcs[t].head == head))
  }

  lemma StackStands(s: State, e: Event, s': State, u: nat)
    requires Step(s, e, s') && u < |s.stacks| && !Changes(s, e, u)
    ensures |s'.stacks| == |s.stacks| && s'.stacks[u] == s.stacks[u]
  {
    hide HasPartial, Pop, Push, AddPage, CanReturn, SameElsewhere;
  }

  lemma ComparesOn(s: State, e: Event, s': State, t: nat, u: nat, head: Word)
    requires Step(s, e, s') && Compares(s, t, u, head) && e != CasOk(t) && e != CasFail(t)
    ensures Compares(s', t, u, head)
  {
    if e.t != t { OthersStill(s, e, s', t); }
    hide HasPartial, Pop, Push, SlowStep, CanReturn;
  }

  lemma {:induction false} ChangeComes(ss: seq<State>, es: seq<Event>, n: nat, i: nat, j: nat, t: nat, u: nat, head: Word)
    returns (k: nat)
    requires Run(ss, es, n) && i <= j < |es| && es[j] == CasFail(t) && u < |ss[i].stacks| && ss[i].stacks[u] == head
    requires Compares(ss[i], t, u, head) && forall m :: i <= m < j ==> es[m] != CasFail(t) && es[m] != CasOk(t)
    requires u < |ss[j].stacks| && ss[j].stacks[u] != head
    ensures i <= k < j && Changes(ss[k], es[k], u) && es[k] != CasOk(t)
    decreases j - i
  {
    hide Step, Start, Compares, Changes;
    if Changes(ss[i], es[i], u) {
      k := i;
    } else {
      StackStands(ss[i], es[i], ss[i + 1], u);
      ComparesOn(ss[i], es[i], ss[i + 1], t, u, head);
      k := ChangeComes(ss, es, n, i + 1, j, t, u, head);
    }
  }

  /** The push is lock-free: a compare-and-swap that finds another head than the one its thread has read
      lost to another thread's successful push on the same stack, or to the owner's swap, in between. */
  lemma LosesToASuccess(ss: seq<State>, es: seq<Event>, n: nat, i: nat, j: nat, t: nat) returns (k: nat)
    requires Run(ss, es, n) && i < j < |es| && (es[i] == LoadTarget(t) || es[i] == CasFail(t)) && es[j] == CasFail(t)
    requires forall m :: i < m < j ==> es[m] != CasFail(t) && es[m] != CasOk(t)
    requires Advances(ss[j], es[j])
    ensures i < k < j && t < |ss[j].pcs| && ss[j].pcs[t].PushCas? && es[k] != CasOk(t)
    ensures Changes(ss[k], es[k], ss[j].pcs[t].target)
  {
    hide Start, Step, Changes;
    HeadRead(ss[i], es[i], ss[i + 1], t);
    var u, head := ss[i + 1].pcs[t].target, ss[i + 1].pcs[t].head;
    FailsAt(ss, es, n, i + 1, j, t, u, head);
    k := ChangeComes(ss, es, n, i + 1, j, t, u, head);
  }

  /** Thread t still compares stack u with `head` when its compare-and-swap fails. */
  lemma {:induction false} FailsAt(ss: seq<State>, es: seq<Event>, n: nat, i: nat, j: nat, t: nat, u: nat, head: Word)
    requires Run(ss, es, n) && i <= j < |es| && es[j] == CasFail(t) && Compares(ss[i], t, u, head)
    requires forall m :: i <= m < j ==> es[m] != CasFail(t) && es[m] != CasOk(t)
    ensures t < |ss[j].pcs| && ss[j].pcs[t].PushCas? && ss[j].pcs[t].target == u < |ss[j].stacks|
    ensures ss[j].pcs[t].head == head
    decreases j - i
  {
    if i < j {
      hide Step, Start, Compares;
      ComparesOn(ss[i], es[i], ss[i + 1], t, u, head);
      FailsAt(ss, es, n, i + 1, j, t, u, head);
    } else {
      hide Step;
      FailingPc(ss[j], ss[j + 1], t);
    }
  }

  lemma FailingPc(s: State, s': State, t: nat)
    requires Step(s, CasFail(t), s')
    ensures t < |s.pcs| && s.pcs[t].PushCas? && s.pcs[t].target < |s.stacks|
  {
  }

  /** Reading the head of the target's stack. */
  lemma HeadRead(s: State, e: Event, s': State, t: nat)
    requires Step(s, e, s') && (e == LoadTarget(t) || e == CasFail(t))
    ensures t < |s'.pcs| && s'.pcs[t].PushWrite? && s'.pcs[t].target < |s'.stacks|
    ensures s'.stacks[s'.pcs[t].target] == s'.pcs[t].head
  {
  }

  // ---------------------------------------------------------------------------------------------
  // Every call ends

  /** How many steps thread t has to go, at most, when it runs alone. */
  function Rank(s: State, b: Book, t: nat): nat
    requires t < |s.pcs| == |s.stacks| == |b.stacks| == |b.chains|
  {
    match s.pcs[t]
    case Idle => 0
    case AllocUnlock => 1
    case AllocFast(_) => 1
    case AllocSlow(_) => 2
    case AllocLock(_) => 3
    case AllocCheck(_) => 4
    case DrainUnlock(_) => 5
    case DrainWalk(_, _) => 6 + 2 * |b.chains[t]|
    case DrainFree(_, _, _) => 5 + 2 * |b.chains[t]|
    case DrainSwap(_) => 7 + 2 * |b.stacks[t]|
    case DrainLock(_) => 8 + 2 * |b.stacks[t]|
    case MallocLoad(_) => 9 + 2 * |b.stacks[t]|
    case FreeLocal(_) => 1
    case PushCas(_, u, head) => if u < |s.stacks| && s.stacks[u] == head then 1 else 3
    case PushWrite(_, u, head) => if u < |s.stacks| && s.stacks[u] == head then 2 else 4
    case PushLoad(_, _) => 3
    case FreeRead(_) => 5
  }

  predicate LockFreeFor(s: State, t: nat) {
    s.lock == None || s.lock == Some(t)
  }

  lemma AloneStep(s: State, b: Book, t: nat) returns (e: Event, s': State)
    requires Inv(s, b) && t < |s.pcs| && !s.pcs[t].Idle? && LockFreeFor(s, t)
    ensures Sized(s, b) && Step(s, e, s') && e.t == t && Advances(s, e)
    ensures Inv(s', NextBook(s, b, e)) && Sized(s', NextBook(s, b, e)) && t < |s'.pcs| && LockFreeFor(s', t)
    ensures Rank(s', NextBook(s, b, e), t) < Rank(s, b, t)
  {
    hide Inv, Step, NextBook, Rank, Advances;
    SizedInv(s, b);
    SpinMeansFree(s, b, t);
    e, s' := OwnStep(s, b, t);
    StepKeeps(s, b, e, s');
    SizedInv(s', NextBook(s, b, e));
    DrainingChain(s, b, t);
    RankFalls(s, b, e, s', t);
  }

  lemma SpinMeansFree(s: State, b: Book, t: nat)
    requires Inv(s, b) && t < |s.pcs| && LockFreeFor(s, t)
    ensures (s.pcs[t].DrainLock? || s.pcs[t].AllocLock?) ==> s.lock.None?
  {
    assert ThreadOk(s, b, t);
  }

  lemma RankFalls(s: State, b: Book, e: Event, s': State, t: nat)
    requires Sized(s, b) && Step(s, e, s') && e.t == t && Advances(s, e) && LockFreeFor(s, t)
    requires Sized(s', NextBook(s, b, e))
    requires s.pcs[t].DrainFree? ==> b.chains[t] != []
    ensures t < |s'.pcs| && LockFreeFor(s', t) && Rank(s', NextBook(s, b, e), t) < Rank(s, b, t)
  {
    hide Step, NextBook, Rank, Advances, LockFreeFor;
    StepSizes(s, e, s');
    if e.TakeFast? || e.TakeSlow? {
      RankFallsTaking(s, b, e, s', t);
    } else if Carried(s.pcs[t]).Some? {
      RankFallsFreeing(s, b, e, s', t);
    } else {
      RankFallsDraining(s, b, e, s', t);
    }
  }

  lemma TakenPc(s: State, e: Event, s': State)
    requires Step(s, e, s') && (e.TakeFast? || e.TakeSlow?)
    ensures e.t < |s.pcs| == |s'.pcs| && s'.lock == s.lock
    ensures (s.pcs[e.t].AllocFast? && s'.pcs[e.t].Idle?) || (s.pcs[e.t].AllocSlow? && s'.pcs[e.t].AllocUnlock?)
  {
    hide HasPartial, Pop, AddPage, SameElsewhere;
  }

  lemma RankFallsTaking(s: State, b: Book, e: Event, s': State, t: nat)
    requires Sized(s, b) && Step(s, e, s') && e.t == t && Advances(s, e) && LockFreeFor(s, t)
    requires Sized(s', NextBook(s, b, e))
    requires s.pcs[t].DrainFree? ==> b.chains[t] != []
    requires e.TakeFast? || e.TakeSlow?
    ensures t < |s'.pcs| && LockFreeFor(s', t) && Rank(s', NextBook(s, b, e), t) < Rank(s, b, t)
  {
    TakenPc(s, e, s');
    hide Step, NextBook;
  }

  lemma RankFallsFreeing(s: State, b: Book, e: Event, s': State, t: nat)
    requires Sized(s, b) && Step(s, e, s') && e.t == t && Advances(s, e) && LockFreeFor(s, t)
    requires Sized(s', NextBook(s, b, e))
    requires s.pcs[t].DrainFree? ==> b.chains[t] != []
    requires !(e.TakeFast? || e.TakeSlow?) && Carried(s.pcs[t]).Some?
    ensures t < |s'.pcs| && LockFreeFor(s', t) && Rank(s', NextBook(s, b, e), t) < Rank(s, b, t)
  {
    hide HasPartial, Push, CanReturn, SlowStep, Pop, FreshPlaces;
  }

  lemma RankFallsDraining(s: State, b: Book, e: Event, s': State, t: nat)
    requires Sized(s, b) && Step(s, e, s') && e.t == t && Advances(s, e) && LockFreeFor(s, t)
    requires Sized(s', NextBook(s, b, e))
    requires s.pcs[t].DrainFree? ==> b.chains[t] != []
    requires !(e.TakeFast? || e.TakeSlow?) && Carried(s.pcs[t]).None?
    ensures t < |s'.pcs| && LockFreeFor(s', t) && Rank(s', NextBook(s, b, e), t) < Rank(s, b, t)
  {
    hide HasPartial, Push, CanReturn, SlowStep, Pop, FreshPlaces;
  }

  /** From any reachable state, a thread that runs alone with the lock free, or its own, ends the call it
      is in: malloc, however long its stack, and free, however stale the head it has read. */
  lemma {:induction false} EndsAlone(s: State, b: Book, t: nat) returns (ss: seq<State>, es: seq<Event>)
    requires Inv(s, b) && t < |s.pcs| && LockFreeFor(s, t)
    ensures |ss| == |es| + 1 && ss[0] == s && t < |ss[|es|].pcs| && ss[|es|].pcs[t].Idle?
    ensures forall i :: 0 <= i < |es| ==> Step(ss[i], es[i], ss[i + 1]) && es[i].t == t && Advances(ss[i], es[i])
    ensures Sized(s, b) && |es| <= Rank(s, b, t)
    decreases RankOf(s, b, t)
  {
    hide Inv, Step, NextBook, Advances;
    SizedInv(s, b);
    if s.pcs[t].Idle? {
      ss, es := [s], [];
    } else {
      hide Rank;
      var e, s' := AloneStep(s, b, t);
      var ss', es' := EndsAlone(s', NextBook(s, b, e), t);
      ss, es := [s] + ss', [e] + es';
      forall i | 0 <= i < |es| ensures Step(ss[i], es[i], ss[i + 1]) && es[i].t == t && Advances(ss[i], es[i]) {
        if i > 0 { assert ss[i] == ss'[i - 1] && es[i] == es'[i - 1] && ss[i + 1] == ss'[i]; }
      }
    }
  }

  function RankOf(s: State, b: Book, t: nat): nat {
    if t < |s.pcs| == |s.stacks| == |b.stacks| == |b.chains| then Rank(s, b, t) else 0
  }
}
