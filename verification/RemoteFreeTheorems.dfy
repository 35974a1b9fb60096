/** What holds of every run of any number of threads. */
module RemoteFreeTheorems {
  import opened Lists
  import opened SizeClass
  import opened AbstractSlab
  import opened ArenaLayout
  import opened RemoteFree
  import opened RemoteFreeProofs

  // ---------------------------------------------------------------------------------------------
  // Runs

  /** n threads, nothing allocated yet. */
  ghost predicate Start(s: State, n: nat) {
    && s.slabs == seq(n, _ => EmptySlab())
    && s.owner == map[] && s.pageAddr == map[] && s.lock == None && s.held == {}
    && s.stacks == seq(n, _ => Null)
    && s.pcs == seq(n, _ => Idle)
  }

  /** The states of a run, one step apart. */
  ghost predicate Run(ss: seq<State>, es: seq<Event>, n: nat) {
    && |ss| == |es| + 1
    && Start(ss[0], n)
    && forall i :: 0 <= i < |es| ==> Step(ss[i], es[i], ss[i + 1])
  }

  lemma StartInv(s: State, n: nat)
    requires Start(s, n)
    ensures Inv(s, Book(map[], seq(n, _ => []), seq(n, _ => [])))
  {
    var b := Book(map[], seq(n, _ => []), seq(n, _ => []));
    assert WellFormed(EmptySlab());
    forall t | 0 <= t < |s.pcs| ensures ThreadOk(s, b, t) {
      assert LinkedAs(s.words, Null, []);
    }
  }

  /** In every reachable state some bookkeeping of all slots is right. */
  lemma {:induction false} RunInv(ss: seq<State>, es: seq<Event>, n: nat, i: nat) returns (b: Book)
    requires Run(ss, es, n) && i < |ss|
    ensures Inv(ss[i], b)
    decreases i
  {
    if i == 0 {
      StartInv(ss[0], n);
      b := Book(map[], seq(n, _ => []), seq(n, _ => []));
    } else {
      var b0 := RunInv(ss, es, n, i - 1);
      StepKeeps(ss[i - 1], b0, es[i - 1], ss[i]);
      b := NextBook(ss[i - 1], b0, es[i - 1]);
    }
  }

  // ---------------------------------------------------------------------------------------------
  // Every slot is in exactly one place

  /** Slot x can be found at place q, looking at the state alone. */
  ghost predicate FoundAt(s: State, x: Slot, q: Place) {
    match q
    case FreeOnPage => x.page in s.owner && s.owner[x.page] < |s.slabs| && IsFreeSlot(s.slabs[s.owner[x.page]], x.page, x.idx)
    case Held => x in s.held
    case InFlight(t) => t < |s.pcs| && Carried(s.pcs[t]) == Some(x)
    case Stacked(t) => t < |s.stacks| && exists l :: LinkedAs(s.words, s.stacks[t], l) && x in l
    case Draining(t) => t < |s.pcs| && exists l :: ChainAt(s.words, s.pcs[t], l) && x in l
  }

  ghost predicate OnlyAt(s: State, x: Slot, p: Place) {
    FoundAt(s, x, p) && forall q :: FoundAt(s, x, q) ==> q == p
  }

  lemma {:induction false} LinkedUnique(words: map<Slot, Word>, head: Word, l: seq<Slot>, m: seq<Slot>)
    requires LinkedAs(words, head, l) && LinkedAs(words, head, m)
    ensures l == m
    decreases |l|
  {
    if l != [] && m != [] {
      LinkedUnique(words, Read(words, l[0]), l[1..], m[1..]);
      assert l == [l[0]] + l[1..] && m == [m[0]] + m[1..];
    }
  }

  lemma ChainUnique(words: map<Slot, Word>, pc: Pc, l: seq<Slot>, m: seq<Slot>)
    requires ChainAt(words, pc, l) && ChainAt(words, pc, m)
    ensures l == m
  {
    match pc
    case DrainWalk(_, head) => LinkedUnique(words, head, l, m);
    case DrainFree(_, node, next) =>
      LinkedUnique(words, next, l[1..], m[1..]);
      assert l == [node] + l[1..] && m == [node] + m[1..];
    case _ =>
  }

  /** The slots a state has are partitioned: each is found at one place and at no other. */
  lemma OnePlace(s: State, b: Book, x: Slot)
    requires Inv(s, b) && IsSlot(s, x)
    ensures x in b.place && OnlyAt(s, x, b.place[x])
  {
    hide LinkedAs, ChainAt, DistinctSlots, SlotsPerPage, WellFormed;
    assert SlotOk(s, b, x);
    FoundWhereBooked(s, b, x);
    forall q | FoundAt(s, x, q) ensures q == b.place[x] {
      BookedWhereFound(s, b, x, q);
    }
  }

  lemma FoundWhereBooked(s: State, b: Book, x: Slot)
    requires Inv(s, b) && x in b.place
    ensures FoundAt(s, x, b.place[x])
  {
    hide LinkedAs, ChainAt, DistinctSlots, SlotsPerPage, WellFormed;
    assert SlotOk(s, b, x);
    match b.place[x]
    case Stacked(t) => assert ThreadOk(s, b, t); assert LinkedAs(s.words, s.stacks[t], b.stacks[t]) && x in b.stacks[t];
    case Draining(t) => assert ThreadOk(s, b, t); assert ChainAt(s.words, s.pcs[t], b.chains[t]) && x in b.chains[t];
    case _ =>
  }

  lemma BookedWhereFound(s: State, b: Book, x: Slot, q: Place)
    requires Inv(s, b) && x in b.place && FoundAt(s, x, q)
    ensures q == b.place[x]
  {
    hide LinkedAs, ChainAt, DistinctSlots, SlotsPerPage, WellFormed;
    assert SlotOk(s, b, x);
    match q
    case InFlight(t) => assert ThreadOk(s, b, t);
    case Stacked(t) =>
      assert ThreadOk(s, b, t);
      var l :| LinkedAs(s.words, s.stacks[t], l) && x in l;
      LinkedUnique(s.words, s.stacks[t], l, b.stacks[t]);
    case Draining(t) =>
      assert ThreadOk(s, b, t);
      var l :| ChainAt(s.words, s.pcs[t], l) && x in l;
      ChainUnique(s.words, s.pcs[t], l, b.chains[t]);
    case _ =>
  }

  /** In every reachable state each slot of every slab page is in exactly one place. */
  lemma RunPartitions(ss: seq<State>, es: seq<Event>, n: nat, i: nat, x: Slot) returns (q: Place)
    requires Run(ss, es, n) && i < |ss| && IsSlot(ss[i], x)
    ensures OnlyAt(ss[i], x, q)
  {
    var b := RunInv(ss, es, n, i);
    OnePlace(ss[i], b, x);
    q := b.place[x];
  }

  // ---------------------------------------------------------------------------------------------
  // A slot's life

  /** The moves a slot can make in one step of thread t. */
  predicate Moves(p: Place, q: Place, t: nat) {
    || p == q
    || (p == FreeOnPage && q == Held)
    || (p == Held && q == InFlight(t))
    || (p == InFlight(t) && (q == FreeOnPage || q.Stacked?))
    || (p == Stacked(t) && q == Draining(t))
    || (p == Draining(t) && q == FreeOnPage)
  }

  /** The slot a step of `alloc` takes: the first free slot of the first partial page, without one the
      first slot of the next page, nothing when the arena is full. */
  function Chosen(s: State, t: nat): Option<Slot>
    requires t < |s.pcs| == |s.slabs| && (s.pcs[t].AllocFast? || s.pcs[t].AllocSlow?)
  {
    if HasPartial(s.slabs[t], s.pcs[t].class_) then Some(PoppedSlot(s.slabs[t], s.pcs[t].class_))
    else if s.pcs[t].AllocSlow? && s.nextFreePage < PAGES_PER_ARENA then Some(Slot(s.nextFreePage, 0))
    else None
  }

  /** Where a slot found at p is after the step e: what every event does with every slot. */
  function NextPlace(s: State, e: Event, x: Slot, p: Place): Place
    requires e.t < |s.pcs| == |s.slabs|
  {
    var t, pc := e.t, s.pcs[e.t];
    if (e.TakeFast? || e.TakeSlow?) && (pc.AllocFast? || pc.AllocSlow?) && Chosen(s, t) == Some(x) then Held
    else if e == CallFree(t, x) then InFlight(t)
    else if e.LocalFree? && pc == FreeLocal(x) then FreeOnPage
    else if e.CasOk? && pc.PushCas? && pc.ptr == x then Stacked(pc.target)
    else if e.Swap? && p == Stacked(t) then Draining(t)
    else if e.WalkFree? && pc.DrainFree? && pc.node == x then FreeOnPage
    else p
  }

  /** A stack or a detached chain that x is on is that of its page's owner. */
  ghost predicate AtOwner(s: State, x: Slot, p: Place) {
    match p
    case Stacked(u) => x.page in s.owner && s.owner[x.page] == u
    case Draining(u) => x.page in s.owner && s.owner[x.page] == u
    case _ => true
  }

  /** A pushed slot stays on its owner's stack until the owner detaches it, then in the owner's chain
      until the owner's slab takes it back: it is neither lost nor taken twice, and nobody but the
      owner moves it. */
  lemma StepMoves(s: State, b: Book, e: Event, s': State, x: Slot)
    requires Inv(s, b) && Step(s, e, s') && x in b.place
    ensures Sized(s, b) && Inv(s', NextBook(s, b, e))
    ensures x in NextBook(s, b, e).place && Moves(b.place[x], NextBook(s, b, e).place[x], e.t)
    ensures AtOwner(s, x, b.place[x]) && AtOwner(s', x, NextBook(s, b, e).place[x])
    ensures e.t < |s.pcs| == |s.slabs| && NextBook(s, b, e).place[x] == NextPlace(s, e, x, b.place[x])
  {
    StepKeeps(s, b, e, s');
    hide Inv, Step, NextBook, NextPlace;
    StepSizes(s, e, s');
    NextPlaceBooked(s, b, e, s', x);
    if OnSlab(e) {
      SlabMoves(s, b, e, s', x);
    } else {
      OtherMoves(s, b, e, s', x);
    }
    BookedAtOwner(s, b, x);
    BookedAtOwner(s', NextBook(s, b, e), x);
  }

  lemma NextPlaceBooked(s: State, b: Book, e: Event, s': State, x: Slot)
    requires Inv(s, b) && Sized(s, b) && Step(s, e, s') && x in b.place
    ensures x in NextBook(s, b, e).place
    ensures NextBook(s, b, e).place[x] == NextPlace(s, e, x, b.place[x])
  {
    hide Inv, Step, NextBook, NextPlace;
    StepSizes(s, e, s');
    if e.TakeFast? || e.TakeSlow? {
      KnownPage(s, b, x);
      TakenBooked(s, b, e, s', x);
    } else {
      OthersBooked(s, b, e, s', x);
    }
  }

  lemma TakenBooked(s: State, b: Book, e: Event, s': State, x: Slot)
    requires Sized(s, b) && Step(s, e, s') && x in b.place && x.page < s.nextFreePage && (e.TakeFast? || e.TakeSlow?)
    ensures x in NextBook(s, b, e).place
    ensures NextBook(s, b, e).place[x] == NextPlace(s, e, x, b.place[x])
  {
    hide Pop, HasPartial, FreshPlaces, At, Taken, PoppedSlot;
    if e.TakeSlow? {
      FreshPlacesFacts(b.place, s.nextFreePage, s.pcs[e.t].class_);
    }
  }

  lemma OthersBooked(s: State, b: Book, e: Event, s': State, x: Slot)
    requires Sized(s, b) && Step(s, e, s') && x in b.place && !(e.TakeFast? || e.TakeSlow?)
    ensures x in NextBook(s, b, e).place
    ensures NextBook(s, b, e).place[x] == NextPlace(s, e, x, b.place[x])
  {
    hide HasPartial, At, Returned, CanReturn, SlowStep, Chosen;
  }

  lemma BookedAtOwner(s: State, b: Book, x: Slot)
    requires Inv(s, b) && x in b.place
    ensures AtOwner(s, x, b.place[x])
  {
    hide SlotsPerPage;
    assert SlotOk(s, b, x);
  }

  /** The same over runs, read off the states alone: a slot's place and its next place. */
  lemma RunMoves(ss: seq<State>, es: seq<Event>, n: nat, i: nat, x: Slot) returns (p: Place, q: Place)
    requires Run(ss, es, n) && i < |es| && IsSlot(ss[i], x)
    ensures IsSlot(ss[i + 1], x) && Moves(p, q, es[i].t)
    ensures OnlyAt(ss[i], x, p) && OnlyAt(ss[i + 1], x, q)
    ensures AtOwner(ss[i], x, p) && AtOwner(ss[i + 1], x, q)
    ensures es[i].t < |ss[i].pcs| == |ss[i].slabs| && q == NextPlace(ss[i], es[i], x, p)
  {
    hide Inv, Step, IsSlot, FoundAt, NextBook, Moves, AtOwner, NextPlace;
    var b := RunInv(ss, es, n, i);
    OnePlace(ss[i], b, x);
    StepMoves(ss[i], b, es[i], ss[i + 1], x);
    StepSizes(ss[i], es[i], ss[i + 1]);
    var b' := NextBook(ss[i], b, es[i]);
    BookedIsSlot(ss[i + 1], b', x);
    OnePlace(ss[i + 1], b', x);
    p, q := b.place[x], b'.place[x];
  }

  lemma OtherMoves(s: State, b: Book, e: Event, s': State, x: Slot)
    requires Inv(s, b) && Sized(s, b) && Step(s, e, s') && x in b.place
    requires !OnSlab(e)
    ensures x in NextBook(s, b, e).place && Moves(b.place[x], NextBook(s, b, e).place[x], e.t)
  {
    hide Inv, HasPartial, SlowStep;
    match e
    case CallFree(_, y) => HeldPlace(s, b, y);
    case CasOk(_) => CarriedPlace(s, b, e.t);
    case _ =>
  }

  lemma SlabMoves(s: State, b: Book, e: Event, s': State, x: Slot)
    requires Inv(s, b) && Sized(s, b) && Step(s, e, s') && x in b.place
    requires OnSlab(e)
    ensures x in NextBook(s, b, e).place && Moves(b.place[x], NextBook(s, b, e).place[x], e.t)
  {
    hide Inv, Pop, Push, HasPartial, FreshPlaces, At, Taken, Returned;
    match e
    case TakeFast(_) => TakenFromPage(s, b, e.t, s.pcs[e.t].class_);
    case TakeSlow(_, _) =>
      if HasPartial(s.slabs[e.t], s.pcs[e.t].class_) {
        TakenFromPage(s, b, e.t, s.pcs[e.t].class_);
      } else {
        FreshPlacesFacts(b.place, s.nextFreePage, s.pcs[e.t].class_);
        KnownPage(s, b, x);
      }
    case WalkFree(_, _) => DrainedPlace(s, b, e.t);
    case LocalFree(_, _) => CarriedPlace(s, b, e.t);
    case _ =>
  }

  lemma TakenFromPage(s: State, b: Book, t: nat, class_: nat)
    requires Inv(s, b) && t < |s.slabs| && HasPartial(s.slabs[t], class_)
    ensures PoppedSlot(s.slabs[t], class_) in b.place && b.place[PoppedSlot(s.slabs[t], class_)] == FreeOnPage
    ensures PoppedSlot(s.slabs[t], class_) !in s.held
  {
    hide ThreadsOk, SlotsPerPage;
    assert WellFormed(s.slabs[t]);
    PopKeepsWellFormed(s.slabs[t], class_);
    FreeSlotPlaced(s, b, t, PoppedSlot(s.slabs[t], class_));
  }

  lemma KnownPage(s: State, b: Book, x: Slot)
    requires Inv(s, b) && x in b.place
    ensures x.page in s.owner && x.page < s.nextFreePage
  {
    assert SlotOk(s, b, x);
  }

  lemma DrainedPlace(s: State, b: Book, t: nat)
    requires Inv(s, b) && t < |s.pcs| && s.pcs[t].DrainFree?
    ensures s.pcs[t].node in b.place && b.place[s.pcs[t].node] == Draining(t)
  {
    assert ThreadOk(s, b, t);
    assert s.pcs[t].node in b.chains[t];
  }

  /** The slot `alloc` takes is in nobody's hands, in flight nowhere, on no stack and in no chain: it is
      free on its page and nowhere else or, on a new page, nowhere at all. It and no other slot comes
      into a caller's hands. */
  ghost predicate HandsOutFresh(s: State, t: nat, s': State)
    requires t < |s.pcs| == |s.slabs| && (s.pcs[t].AllocFast? || s.pcs[t].AllocSlow?)
  {
    match Chosen(s, t)
    case None => s'.held == s.held
    case Some(x) =>
      && x !in s.held && s'.held == s.held + {x}
      && (if HasPartial(s.slabs[t], s.pcs[t].class_) then IsSlot(s, x) && OnlyAt(s, x, FreeOnPage)
          else !IsSlot(s, x) && forall q :: !FoundAt(s, x, q))
  }

  /** malloc never hands out a slot that is still live, and no other step hands out any. */
  lemma MallocReturnsFresh(s: State, b: Book, e: Event, s': State)
    requires Inv(s, b) && Step(s, e, s')
    ensures e.t < |s.pcs| == |s.slabs|
    ensures e.TakeFast? || e.TakeSlow? ==>
              (s.pcs[e.t].AllocFast? || s.pcs[e.t].AllocSlow?) && HandsOutFresh(s, e.t, s')
    ensures !(e.TakeFast? || e.TakeSlow?) ==> s'.held <= s.held
  {
    hide Inv, HasPartial, IsSlot, FoundAt, WellFormed, AddPage, PoppedSlot, SlowStep, Step;
    StepSizes(s, e, s');
    if e.TakeFast? || e.TakeSlow? {
      TakeAdds(s, b, e, s');
      if HasPartial(s.slabs[e.t], s.pcs[e.t].class_) {
        var x := PoppedSlot(s.slabs[e.t], s.pcs[e.t].class_);
        TakenFromPage(s, b, e.t, s.pcs[e.t].class_);
        BookedIsSlot(s, b, x);
        OnePlace(s, b, x);
      } else {
        NewSlotNowhere(s, b, e.t, Slot(s.nextFreePage, 0));
      }
    } else {
      OthersAdd(s, e, s');
    }
  }

  lemma StepSizes(s: State, e: Event, s': State)
    requires Step(s, e, s')
    ensures e.t < |s.pcs| == |s.slabs|
  {
  }

  lemma OthersAdd(s: State, e: Event, s': State)
    requires Step(s, e, s') && !(e.TakeFast? || e.TakeSlow?)
    ensures s'.held <= s.held
  {
    hide HasPartial, Pop, Push, SlowStep;
  }

  lemma TakeAdds(s: State, b: Book, e: Event, s': State)
    requires Inv(s, b) && Step(s, e, s') && (e.TakeFast? || e.TakeSlow?)
    ensures e.t < |s.pcs| == |s.slabs| && (s.pcs[e.t].AllocFast? || s.pcs[e.t].AllocSlow?)
    ensures s'.held == match Chosen(s, e.t) case None => s.held case Some(x) => s.held + {x}
  {
    hide Inv, HasPartial, Pop, AddPage, SlotsPerPage, WellFormed;
    var t := e.t;
    if e.TakeSlow? && !HasPartial(s.slabs[t], s.pcs[t].class_) && s.nextFreePage < PAGES_PER_ARENA {
      NewPageUnownedInv(s, b, t);
      NewPageFacts(s.slabs[t], s.nextFreePage, s.pcs[t].class_);
    }
  }

  /** A slot of a page that has not been handed out is found nowhere. */
  lemma NewSlotNowhere(s: State, b: Book, t: nat, x: Slot)
    requires Inv(s, b) && t < |s.slabs| && x.page == s.nextFreePage
    ensures !IsSlot(s, x) && x !in s.held && forall q :: !FoundAt(s, x, q)
  {
    hide WellFormed, SlotsPerPage, LinkedAs, ChainAt;
    NewPageUnowned(s, t);
    forall q | FoundAt(s, x, q) ensures false {
      FoundIsBooked(s, b, x, q);
      KnownPage(s, b, x);
    }
    assert !FoundAt(s, x, Held);
  }

  lemma FoundIsBooked(s: State, b: Book, x: Slot, q: Place)
    requires Inv(s, b) && FoundAt(s, x, q)
    ensures x in b.place
  {
    hide LinkedAs, ChainAt, DistinctSlots, SlotsPerPage;
    match q
    case FreeOnPage => FreeSlotPlaced(s, b, s.owner[x.page], x);
    case Held =>
    case InFlight(t) => assert ThreadOk(s, b, t);
    case Stacked(t) =>
      assert ThreadOk(s, b, t);
      var l :| LinkedAs(s.words, s.stacks[t], l) && x in l;
      LinkedUnique(s.words, s.stacks[t], l, b.stacks[t]);
    case Draining(t) =>
      assert ThreadOk(s, b, t);
      var l :| ChainAt(s.words, s.pcs[t], l) && x in l;
      ChainUnique(s.words, s.pcs[t], l, b.chains[t]);
  }

  /** In every run: whatever `ferrum_malloc` hands out is fresh, and nothing else is handed out. */
  lemma RunMallocFresh(ss: seq<State>, es: seq<Event>, n: nat, i: nat)
    requires Run(ss, es, n) && i < |es|
    ensures es[i].t < |ss[i].pcs| == |ss[i].slabs|
    ensures es[i].TakeFast? || es[i].TakeSlow? ==>
              && (ss[i].pcs[es[i].t].AllocFast? || ss[i].pcs[es[i].t].AllocSlow?)
              && HandsOutFresh(ss[i], es[i].t, ss[i + 1])
    ensures !(es[i].TakeFast? || es[i].TakeSlow?) ==> ss[i + 1].held <= ss[i].held
  {
    hide Inv, Step, HandsOutFresh;
    var b := RunInv(ss, es, n, i);
    MallocReturnsFresh(ss[i], b, es[i], ss[i + 1]);
  }

  lemma BookedIsSlot(s: State, b: Book, x: Slot)
    requires Inv(s, b) && x in b.place
    ensures IsSlot(s, x)
  {
    assert SlotOk(s, b, x);
  }

  // ---------------------------------------------------------------------------------------------
  // Push, drain, records, lock

  /** A successful compare-and-swap puts the node on top of whatever the stack holds at that moment,
      even if the head it compared with had been drained, reallocated and pushed again in between. */
  lemma CasPushesOnTop(s: State, b: Book, e: Event, s': State, l: seq<Slot>)
    requires Inv(s, b) && Step(s, e, s') && e.CasOk?
    requires LinkedAs(s.words, s.stacks[s.pcs[e.t].target], l)
    ensures var x := s.pcs[e.t].ptr;
      x !in l && LinkedAs(s'.words, s'.stacks[s.pcs[e.t].target], [x] + l) && DistinctSlots([x] + l)
  {
    hide SlotsPerPage, WellFormed, Owned, SlotsOk;
    var t, x, u := e.t, s.pcs[e.t].ptr, s.pcs[e.t].target;
    assert ThreadOk(s, b, t) && ThreadOk(s, b, u);
    LinkedUnique(s.words, s.stacks[u], l, b.stacks[u]);
    assert x !in l && ([x] + l)[1..] == l;
  }

  /** The chain being drained shortens by its first node with every free, and nothing else touches it:
      the walk ends after as many frees as the stack had nodes. */
  lemma DrainShrinks(s: State, b: Book, e: Event, s': State, t: nat)
    requires Inv(s, b) && Step(s, e, s') && t < |s.pcs| && b.chains[t] != []
    ensures Sized(s, b)
    ensures var c := NextBook(s, b, e).chains[t];
      c == if e.WalkFree? && e.t == t then b.chains[t][1..] else b.chains[t]
    ensures e.WalkFree? && e.t == t ==> s.pcs[t].node == b.chains[t][0]
    ensures e.WalkEnd? ==> e.t != t
  {
    hide LinkedAs, DistinctSlots, SlotsPerPage, WellFormed, Owned, SlotsOk, Pop, Push, HasPartial;
    assert ThreadOk(s, b, t);
    assert ThreadOk(s, b, e.t);
    EmptyEnd(s.words, b.chains[t]);
  }

  lemma EmptyEnd(words: map<Slot, Word>, l: seq<Slot>)
    ensures LinkedAs(words, Null, l) ==> l == []
  {
  }

  predicate OnSlab(e: Event) {
    e.WalkFree? || e.LocalFree? || e.TakeFast? || e.TakeSlow?
  }

  lemma OffSlab(s: State, e: Event, s': State)
    requires Step(s, e, s') && !OnSlab(e)
    ensures s'.slabs == s.slabs && s'.owner == s.owner && s'.pageAddr == s.pageAddr && s'.base == s.base
  {
    hide HasPartial;
  }

  lemma TakenKeepsPages(s: State, t: nat, slab: Slab, class_: nat)
    requires t < |s.slabs| && HasPartial(slab, class_)
    ensures var s' := Taken(s, t, slab, class_);
      && s'.slabs == s.slabs[t := s'.slabs[t]] && s'.owner == s.owner && s'.pageAddr == s.pageAddr && s'.base == s.base
      && SamePages(slab, s'.slabs[t])
  {
    PopSamePages(slab, class_);
    hide SamePages;
  }

  lemma ReturnedKeepsPages(s: State, t: nat, x: Slot, written: Word)
    requires CanReturn(s, t, x)
    ensures var s' := Returned(s, t, x, written);
      && s'.slabs == s.slabs[t := s'.slabs[t]] && s'.owner == s.owner && s'.pageAddr == s.pageAddr && s'.base == s.base
      && SamePages(s.slabs[t], s'.slabs[t])
  {
    hide SlotsPerPage;
    PushSamePages(s.slabs[t], x.page, x.idx);
    hide SamePages;
  }

  /** A step on a slab replaces thread e.t's slab by one with the same classes, maybe with a new page. */
  lemma OnSlabKeepsPages(s: State, e: Event, s': State)
    requires Step(s, e, s') && OnSlab(e)
    ensures s'.slabs == s.slabs[e.t := s'.slabs[e.t]]
    ensures forall p :: p in s.owner && p != s.nextFreePage ==> p in s'.owner && s'.owner[p] == s.owner[p]
    ensures forall p :: p in s.pageAddr && p != s.nextFreePage ==> p in s'.pageAddr && s'.pageAddr[p] == s.pageAddr[p]
    ensures forall p :: p in s.slabs[e.t].pages && p != s.nextFreePage ==>
              p in s'.slabs[e.t].pages && s'.slabs[e.t].pages[p].class_ == s.slabs[e.t].pages[p].class_
  {
    hide Taken, Returned, CanReturn, HasPartial, SameElsewhere, SlotsPerPage, PageAddr, ClassToSize;
    var t, pc := e.t, s.pcs[e.t];
    match e
    case WalkFree(_, w) => ReturnedKeepsPages(s, t, pc.node, w);
    case LocalFree(_, w) => ReturnedKeepsPages(s, t, pc.ptr, w);
    case TakeFast(_) => TakenKeepsPages(s, t, s.slabs[t], pc.class_);
    case TakeSlow(_, memory) =>
      if HasPartial(s.slabs[t], pc.class_) {
        TakenKeepsPages(s, t, s.slabs[t], pc.class_);
      } else if s.nextFreePage < PAGES_PER_ARENA {
        var p := s.nextFreePage;
        var slab := AddPage(s.slabs[t], p, pc.class_);
        TakenKeepsPages(s.(nextFreePage := p + 1, owner := s.owner[p := t],
                           pageAddr := s.pageAddr[p := PageAddr(s.base, p)], words := memory), t, slab, pc.class_);
      }
  }

  /** Once a page has been given to a thread, its record's owner, class and address never change. */
  lemma RecordsStable(s: State, b: Book, e: Event, s': State, p: nat)
    requires Inv(s, b) && Step(s, e, s') && p in s.owner
    ensures p in s'.owner && s'.owner[p] == s.owner[p]
    ensures p in s.pageAddr && p in s'.pageAddr && s'.pageAddr[p] == s.pageAddr[p] == PageAddr(s.base, p)
    ensures s.owner[p] < |s.slabs| == |s'.slabs| && p in s.slabs[s.owner[p]].pages && p in s'.slabs[s.owner[p]].pages
    ensures s'.slabs[s.owner[p]].pages[p].class_ == s.slabs[s.owner[p]].pages[p].class_
    ensures s'.slabs[s.owner[p]].pages[p] != s.slabs[s.owner[p]].pages[p] ==> e.t == s.owner[p]
  {
    hide Step, SlotsOk, ThreadsOk, WellFormed, PageAddr;
    StepSizes(s, e, s');
    if OnSlab(e) { OnSlabKeepsPages(s, e, s'); } else { OffSlab(s, e, s'); }
  }

  /** What the unlocked reads of `free` see: the owner, class and address in page p's record. */
  predicate Recorded(s: State, p: nat, owner: nat, class_: nat, addr: nat) {
    && p in s.owner && s.owner[p] == owner < |s.slabs| && p in s.pageAddr && s.pageAddr[p] == addr
    && p in s.slabs[owner].pages && s.slabs[owner].pages[p].class_ == class_
  }

  /** From the moment a page has an owner to the end of the run its record reads the same. */
  lemma {:induction false} RunRecordsStable(ss: seq<State>, es: seq<Event>, n: nat, i: nat, j: nat, p: nat,
                                            owner: nat, class_: nat, addr: nat)
    requires Run(ss, es, n) && i <= j < |ss| && Recorded(ss[i], p, owner, class_, addr)
    ensures Recorded(ss[j], p, owner, class_, addr)
    decreases j
  {
    hide Inv, Step, PageAddr;
    if i < j {
      RunRecordsStable(ss, es, n, i, j - 1, p, owner, class_, addr);
      var b := RunInv(ss, es, n, j - 1);
      RecordsStable(ss[j - 1], b, es[j - 1], ss[j], p);
    }
  }

  /** At most one thread is inside the lock. */
  lemma LockIsExclusive(s: State, b: Book, t: nat, u: nat)
    requires Inv(s, b) && t < |s.pcs| && u < |s.pcs| && InCritical(s.pcs[t]) && InCritical(s.pcs[u])
    ensures t == u && s.lock == Some(t)
  {
    assert ThreadOk(s, b, t) && ThreadOk(s, b, u);
  }

  /** free sends every slot home: locally when the page is the thread's own, otherwise to the stack of
      the page's owner, who is another thread. */
  lemma FreeGoesHome(s: State, b: Book, t: nat)
    requires Inv(s, b) && t < |s.pcs|
    ensures s.pcs[t].FreeRead? ==> s.pcs[t].ptr.page in s.owner
    ensures s.pcs[t].FreeLocal? ==> CanReturn(s, t, s.pcs[t].ptr) && s.owner[s.pcs[t].ptr.page] == t
    ensures s.pcs[t].PushCas? ==>
      s.pcs[t].ptr.page in s.owner && s.owner[s.pcs[t].ptr.page] == s.pcs[t].target != t && s.pcs[t].target < |s.stacks|
  {
    hide LinkedAs, DistinctSlots, SlotsPerPage, WellFormed, IsSlot;
    FreeIsLegal(s, b, t);
    assert ThreadOk(s, b, t);
    if Carried(s.pcs[t]).Some? {
      CarriedPlace(s, b, t);
      KnownPage(s, b, Carried(s.pcs[t]).value);
    }
  }

  /** The event takes the call its thread is in one step further: it starts no call, writes no payload,
      and fails no compare-and-swap that finds what it expects. */
  predicate Advances(s: State, e: Event) {
    && !e.CallMalloc? && !e.CallFree? && !e.UserWrite? && !e.Bump?
    && (e.CasFail? && e.t < |s.pcs| && s.pcs[e.t].PushCas? && s.pcs[e.t].target < |s.stacks| ==>
          s.stacks[s.pcs[e.t].target] != s.pcs[e.t].head)
  }

  /** No thread ever sticks: inside a call every thread can take a step, unless it spins on a lock that
      another thread, itself able to step, holds. The guards of the steps hide no error. */
  lemma NoThreadSticks(s: State, b: Book, t: nat) returns (e: Event, s': State)
    requires Inv(s, b) && t < |s.pcs| && !s.pcs[t].Idle?
    ensures Step(s, e, s')
    ensures e.t == t || ((s.pcs[t].DrainLock? || s.pcs[t].AllocLock?) && s.lock == Some(e.t) && e.t != t)
  {
    hide LinkedAs, DistinctSlots, SlotsPerPage;
    if (s.pcs[t].DrainLock? || s.pcs[t].AllocLock?) && s.lock.Some? {
      var u := s.lock.value;
      assert ThreadOk(s, b, u) && ThreadOk(s, b, t);
      e, s' := OwnStep(s, b, u);
    } else {
      e, s' := OwnStep(s, b, t);
    }
  }

  lemma OwnStep(s: State, b: Book, t: nat) returns (e: Event, s': State)
    requires Inv(s, b) && t < |s.pcs| && !s.pcs[t].Idle?
    requires !((s.pcs[t].DrainLock? || s.pcs[t].AllocLock?) && s.lock.Some?)
    ensures Step(s, e, s') && e.t == t && Advances(s, e)
  {
    hide Inv, Step, HasPartial, CanReturn, WellFormed;
    StepFacts(s, b, t);
    if s.pcs[t].AllocSlow? {
      e, s' := SlowAllocStep(s, b, t, s.pcs[t].class_);
    } else if Carried(s.pcs[t]).Some? {
      e, s' := FreeStep(s, t);
    } else if s.pcs[t].DrainWalk? || s.pcs[t].DrainFree? {
      e, s' := WalkStep(s, t);
    } else {
      e, s' := MallocStep(s, t);
    }
  }

  lemma MallocStep(s: State, t: nat) returns (e: Event, s': State)
    requires t < |s.slabs| == |s.stacks| == |s.pcs| && Carried(s.pcs[t]).None?
    requires !(s.pcs[t].Idle? || s.pcs[t].AllocSlow? || s.pcs[t].DrainWalk? || s.pcs[t].DrainFree?)
    requires !((s.pcs[t].DrainLock? || s.pcs[t].AllocLock?) && s.lock.Some?)
    requires s.pcs[t].AllocFast? ==> HasPartial(s.slabs[t], s.pcs[t].class_)
    ensures Step(s, e, s') && e.t == t && Advances(s, e)
  {
    hide HasPartial, Pop, SlowStep, CanReturn;
    match s.pcs[t]
    case MallocLoad(c) =>
      e := LoadOwnStack(t);
      s' := At(s, t, if s.stacks[t] != Null then DrainLock(c) else AllocCheck(c));
    case DrainLock(c) => e := Acquire(t); s' := At(s.(lock := Some(t)), t, DrainSwap(c));
    case DrainSwap(c) => e := Swap(t); s' := At(s.(stacks := s.stacks[t := Null]), t, DrainWalk(c, s.stacks[t]));
    case DrainUnlock(c) => e := Release(t); s' := At(s.(lock := None), t, AllocCheck(c));
    case AllocCheck(c) =>
      e := CheckPartial(t);
      s' := At(s, t, if HasPartial(s.slabs[t], c) then AllocFast(c) else AllocLock(c));
    case AllocFast(c) => e := TakeFast(t); s' := At(Taken(s, t, s.slabs[t], c), t, Idle);
    case AllocLock(c) => e := Acquire(t); s' := At(s.(lock := Some(t)), t, AllocSlow(c));
    case AllocUnlock => e := Release(t); s' := At(s.(lock := None), t, Idle);
  }

  lemma WalkStep(s: State, t: nat) returns (e: Event, s': State)
    requires t < |s.slabs| == |s.stacks| == |s.pcs| && (s.pcs[t].DrainWalk? || s.pcs[t].DrainFree?)
    requires s.pcs[t].DrainWalk? ==> !s.pcs[t].head.Junk?
    requires s.pcs[t].DrainFree? ==> CanReturn(s, t, s.pcs[t].node)
    ensures Step(s, e, s') && e.t == t && Advances(s, e)
  {
    hide HasPartial, Push, SlowStep;
    match s.pcs[t]
    case DrainWalk(c, head) =>
      if head.Null? {
        e := WalkEnd(t); s' := At(s, t, DrainUnlock(c));
      } else {
        e := WalkRead(t); s' := At(s, t, DrainFree(c, head.slot, Read(s.words, head.slot)));
      }
    case DrainFree(c, node, next) => e := WalkFree(t, Null); s' := At(Returned(s, t, node, Null), t, DrainWalk(c, next));
  }

  lemma FreeStep(s: State, t: nat) returns (e: Event, s': State)
    requires t < |s.slabs| == |s.stacks| == |s.pcs| && Carried(s.pcs[t]).Some?
    requires s.pcs[t].FreeRead? ==> s.pcs[t].ptr.page in s.owner
    requires s.pcs[t].FreeLocal? ==> CanReturn(s, t, s.pcs[t].ptr)
    requires s.pcs[t].PushLoad? || s.pcs[t].PushWrite? || s.pcs[t].PushCas? ==> s.pcs[t].target < |s.stacks|
    ensures Step(s, e, s') && e.t == t && Advances(s, e)
  {
    hide HasPartial, Push, SlowStep;
    match s.pcs[t]
    case FreeRead(x) =>
      e := ReadOwner(t);
      s' := At(s, t, if s.owner[x.page] == t then FreeLocal(x) else PushLoad(x, s.owner[x.page]));
    case FreeLocal(x) => e := LocalFree(t, Null); s' := At(Returned(s, t, x, Null), t, Idle);
    case PushLoad(x, u) => e := LoadTarget(t); s' := At(s, t, PushWrite(x, u, s.stacks[u]));
    case PushWrite(x, u, head) => e := WriteNext(t); s' := At(s.(words := s.words[x := head]), t, PushCas(x, u, head));
    case PushCas(x, u, head) =>
      if s.stacks[u] == head {
        e := CasOk(t); s' := At(s.(stacks := s.stacks[u := Ptr(x)]), t, Idle);
      } else {
        e := CasFail(t); s' := At(s, t, PushWrite(x, u, s.stacks[u]));
      }
  }

  lemma StepFacts(s: State, b: Book, t: nat)
    requires Inv(s, b) && t < |s.pcs|
    ensures |s.slabs| == |s.stacks| == |s.pcs| && |s.slabs[t].partials| == NUM_SIZE_CLASSES && WellFormed(s.slabs[t])
    ensures s.pcs[t].DrainWalk? ==> !s.pcs[t].head.Junk?
    ensures s.pcs[t].DrainFree? ==> CanReturn(s, t, s.pcs[t].node)
    ensures s.pcs[t].AllocFast? ==> HasPartial(s.slabs[t], s.pcs[t].class_)
    ensures s.pcs[t].AllocSlow? ==> s.pcs[t].class_ < NUM_SIZE_CLASSES
    ensures s.pcs[t].FreeRead? ==> s.pcs[t].ptr.page in s.owner
    ensures s.pcs[t].FreeLocal? ==> CanReturn(s, t, s.pcs[t].ptr)
    ensures s.pcs[t].PushLoad? || s.pcs[t].PushWrite? || s.pcs[t].PushCas? ==> s.pcs[t].target < |s.stacks|
  {
    hide DistinctSlots, SlotsPerPage, CanReturn;
    FreeIsLegal(s, b, t);
    assert ThreadOk(s, b, t);
    if Carried(s.pcs[t]).Some? {
      CarriedPlace(s, b, t);
      KnownPage(s, b, Carried(s.pcs[t]).value);
    }
  }

  lemma SlowAllocStep(s: State, b: Book, t: nat, c: nat) returns (e: Event, s': State)
    requires Inv(s, b) && t < |s.pcs| && s.pcs[t] == AllocSlow(c) && c < NUM_SIZE_CLASSES
    requires |s.slabs| == |s.stacks| == |s.pcs| && |s.slabs[t].partials| == NUM_SIZE_CLASSES && WellFormed(s.slabs[t])
    ensures Step(s, e, s') && e.t == t && Advances(s, e)
  {
    hide Inv, Pop, SlotsPerPage, WellFormed;
    e := TakeSlow(t, s.words);
    if HasPartial(s.slabs[t], c) {
      s' := At(Taken(s, t, s.slabs[t], c), t, AllocUnlock);
    } else if s.nextFreePage < PAGES_PER_ARENA {
      var p := s.nextFreePage;
      NewPageUnownedInv(s, b, t);
      NewPageFacts(s.slabs[t], p, c);
      s' := At(Taken(s.(nextFreePage := p + 1, owner := s.owner[p := t],
                        pageAddr := s.pageAddr[p := PageAddr(s.base, p)], words := s.words), t,
                     AddPage(s.slabs[t], p, c), c), t, AllocUnlock);
    } else {
      s' := At(s, t, AllocUnlock);
    }
  }

  lemma NewPageUnownedInv(s: State, b: Book, t: nat)
    requires Inv(s, b) && t < |s.slabs|
    ensures s.nextFreePage !in s.slabs[t].pages && WellFormed(s.slabs[t])
  {
    NewPageUnowned(s, t);
  }
}
