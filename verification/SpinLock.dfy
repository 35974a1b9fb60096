/** The spin lock and the double-checked initialisation of the globals, one atomic access at a time,
    for any number of threads. */
module SpinLock {
  datatype Pc =
    | LoadInit          // ensure_init: about to read ARENA_INIT
    | SpinInit          // spinning for the lock, to initialise
    | Recheck           // lock held: about to read ARENA_INIT again
    | MakeTls           // the arena has been mapped: about to create the TLS key
    | PutArena          // about to publish GLOBAL_ARENA
    | PutSlab
    | PutTlsf
    | StoreInit         // about to set ARENA_INIT
    | UnlockInit
    | Ready             // ensure_init has returned
    | Spin              // a later call, spinning for the lock
    | Inside            // a later call, inside the lock

  /** For the TLS key and each of the three global pointers, how often it has been written. */
  datatype State = State(lock: bool, init: bool, tls: nat, arena: nat, slab: nat, tlsf: nat, pcs: seq<Pc>)

  predicate Critical(pc: Pc) {
    pc.Recheck? || Initialising(pc) || pc.UnlockInit? || pc.Inside?
  }

  predicate Initialising(pc: Pc) {
    pc.MakeTls? || pc.PutArena? || pc.PutSlab? || pc.PutTlsf? || pc.StoreInit?
  }

  function NextPc(s: State, pc: Pc): Pc {
    match pc
    case LoadInit => if s.init then Ready else SpinInit
    case SpinInit => Recheck
    case Recheck => if s.init then UnlockInit else MakeTls
    case MakeTls => PutArena
    case PutArena => PutSlab
    case PutSlab => PutTlsf
    case PutTlsf => StoreInit
    case StoreInit => UnlockInit
    case UnlockInit => Ready
    case Ready => Spin
    case Spin => Inside
    case Inside => Ready
  }

  /** What the access at `pc` does to the shared variables. */
  function Effect(s: State, pc: Pc): State {
    match pc
    case SpinInit => s.(lock := true)
    case MakeTls => s.(tls := s.tls + 1)
    case PutArena => s.(arena := s.arena + 1)
    case PutSlab => s.(slab := s.slab + 1)
    case PutTlsf => s.(tlsf := s.tlsf + 1)
    case StoreInit => s.(init := true)
    case UnlockInit => s.(lock := false)
    case Spin => s.(lock := true)
    case Inside => s.(lock := false)
    case _ => s
  }

  predicate Spinning(pc: Pc) {
    pc.SpinInit? || pc.Spin?
  }

  /** One step of thread t; a compare-and-swap on the lock may fail, and must while the lock is taken. */
  ghost predicate Step(s: State, t: nat, s': State) {
    t < |s.pcs| &&
    var pc := s.pcs[t];
    || (Spinning(pc) && s' == s)
    || (!(Spinning(pc) && s.lock) && s' == Effect(s, pc).(pcs := s.pcs[t := NextPc(s, pc)]))
  }

  /** How often each of the globals has been written, in the order of writing. */
  predicate Written(s: State, tls: nat, arena: nat, slab: nat, tlsf: nat) {
    s.tls == tls && s.arena == arena && s.slab == slab && s.tlsf == tlsf
  }

  predicate Untouched(s: State) {
    Written(s, 0, 0, 0, 0)
  }

  /** Every global has been written, once. */
  predicate Published(s: State) {
    Written(s, 1, 1, 1, 1)
  }

  predicate AtMostOnce(s: State) {
    s.tls <= 1 && s.arena <= 1 && s.slab <= 1 && s.tlsf <= 1
  }

  /** How far the initialising thread has got. */
  ghost predicate Progress(s: State, pc: Pc) {
    match pc
    case MakeTls => !s.init && Untouched(s)
    case PutArena => !s.init && Written(s, 1, 0, 0, 0)
    case PutSlab => !s.init && Written(s, 1, 1, 0, 0)
    case PutTlsf => !s.init && Written(s, 1, 1, 1, 0)
    case StoreInit => !s.init && Published(s)
    case UnlockInit => s.init
    case Ready => s.init
    case Spin => s.init
    case Inside => s.init
    case _ => true
  }

  /** At most one thread is inside, and the lock is taken exactly while one is. */
  ghost predicate Exclusive(s: State) {
    && (forall t, u :: 0 <= t < |s.pcs| && 0 <= u < |s.pcs| && Critical(s.pcs[t]) && Critical(s.pcs[u]) ==> t == u)
    && (forall t :: 0 <= t < |s.pcs| && Critical(s.pcs[t]) ==> s.lock)
    && (s.lock ==> exists t :: 0 <= t < |s.pcs| && Critical(s.pcs[t]))
  }

  ghost predicate Inv(s: State) {
    && Exclusive(s)
    && (forall t :: 0 <= t < |s.pcs| ==> Progress(s, s.pcs[t]))
    && (s.init ==> Published(s))
    && (!s.init && (forall t :: 0 <= t < |s.pcs| ==> !Initialising(s.pcs[t])) ==> Untouched(s))
  }

  ghost predicate Start(s: State) {
    && !s.lock && !s.init && Untouched(s)
    && forall t :: 0 <= t < |s.pcs| ==> s.pcs[t].LoadInit?
  }

  /** A step takes or gives back the lock as it goes in or out. */
  lemma StepLock(s: State, pc: Pc)
    requires !(Spinning(pc) && s.lock)
    ensures
      || (Effect(s, pc).lock == s.lock && Critical(NextPc(s, pc)) == Critical(pc))
      || (!s.lock && Effect(s, pc).lock && Critical(NextPc(s, pc)) && !Critical(pc))
      || (Critical(pc) && !Effect(s, pc).lock && !Critical(NextPc(s, pc)))
  {
  }

  lemma StepExclusive(s: State, t: nat, s': State)
    requires Exclusive(s) && Step(s, t, s')
    ensures Exclusive(s') && |s'.pcs| == |s.pcs|
  {
    hide Effect, NextPc, Critical;
    if s' != s {
      StepLock(s, s.pcs[t]);
      if s'.lock && !Critical(s'.pcs[t]) {
        var u :| 0 <= u < |s.pcs| && Critical(s.pcs[u]);
        assert s'.pcs[u] == s.pcs[u];
      }
    }
  }

  /** Outside initialisation a step touches none of the globals. */
  lemma StepOutside(s: State, pc: Pc)
    requires !Initialising(pc)
    ensures var e := Effect(s, pc);
      && e == s.(lock := e.lock)
      && (Progress(s, pc) && (pc.Recheck? && !s.init ==> Untouched(s)) ==> Progress(e, NextPc(s, pc)))
    ensures Initialising(NextPc(s, pc)) ==> pc.Recheck? && !s.init
  {
  }

  lemma StepInside(s: State, pc: Pc)
    requires Initialising(pc) && Progress(s, pc)
    ensures var e := Effect(s, pc);
      !s.init && Progress(e, NextPc(s, pc)) && (e.init ==> Published(e)) && (e.init || Initialising(NextPc(s, pc)))
  {
  }

  lemma StepKeeps(s: State, t: nat, s': State)
    requires Inv(s) && Step(s, t, s')
    ensures Inv(s') && |s'.pcs| == |s.pcs|
  {
    StepExclusive(s, t, s');
    if s' != s {
      hide Effect, NextPc;
      var pc, e := s.pcs[t], Effect(s, s.pcs[t]);
      if Initialising(pc) {
        StepInside(s, pc);
        SameGlobals(e, s', NextPc(s, pc));
        forall u | 0 <= u < |s.pcs| && u != t ensures Progress(s', s.pcs[u]) { Bystander(s, t, u, s'); }
        assert s'.init || Initialising(s'.pcs[t]);
      } else {
        if pc.Recheck? { OnlyInside(s, t); }
        StepOutside(s, pc);
        SameGlobals(e, s', NextPc(s, pc));
        forall u | 0 <= u < |s.pcs| && u != t ensures Progress(s', s.pcs[u]) { SameGlobals(s, s', s.pcs[u]); }
        assert forall u :: 0 <= u < |s.pcs| && u != t ==> s'.pcs[u] == s.pcs[u];
      }
    }
  }

  /** While t initialises, every other thread is still on its way to the lock. */
  lemma Bystander(s: State, t: nat, u: nat, s': State)
    requires Inv(s) && t < |s.pcs| && u < |s.pcs| && u != t && Initialising(s.pcs[t])
    ensures Progress(s', s.pcs[u])
  {
    assert Progress(s, s.pcs[t]) && Progress(s, s.pcs[u]);
    assert !Critical(s.pcs[u]);
  }

  lemma SameGlobals(s: State, s': State, pc: Pc)
    requires s' == s.(lock := s'.lock, pcs := s'.pcs) && Progress(s, pc)
    ensures Progress(s', pc)
  {
  }

  /** A thread about to recheck is alone, so nobody is initialising. */
  lemma OnlyInside(s: State, t: nat)
    requires Inv(s) && t < |s.pcs| && s.pcs[t].Recheck?
    ensures !s.init ==> Untouched(s)
  {
    assert forall u :: 0 <= u < |s.pcs| && Initialising(s.pcs[u]) ==> Critical(s.pcs[u]);
  }

  ghost predicate Run(ss: seq<State>, ts: seq<nat>) {
    && |ss| == |ts| + 1 && Start(ss[0])
    && forall i :: 0 <= i < |ts| ==> Step(ss[i], ts[i], ss[i + 1])
  }

  /** In every run: at most one thread holds the lock, each global is written at most once, and a
      thread that has seen ARENA_INIT set, in ensure_init or later, sees them all published. */
  lemma {:induction false} InitialisedOnce(ss: seq<State>, ts: seq<nat>, i: nat)
    requires Run(ss, ts) && i < |ss|
    ensures Inv(ss[i])
    ensures AtMostOnce(ss[i])
    ensures forall t :: 0 <= t < |ss[i].pcs| && (ss[i].pcs[t].Ready? || ss[i].pcs[t].Spin? || ss[i].pcs[t].Inside?) ==>
              Published(ss[i])
    ensures Exclusive(ss[i])
    decreases i
  {
    if i > 0 {
      InitialisedOnce(ss, ts, i - 1);
      StepKeeps(ss[i - 1], ts[i - 1], ss[i]);
    }
    WrittenOnce(ss[i]);
  }

  lemma WrittenOnce(s: State)
    requires Inv(s)
    ensures AtMostOnce(s)
    ensures forall t :: 0 <= t < |s.pcs| && (s.pcs[t].Ready? || s.pcs[t].Spin? || s.pcs[t].Inside?) ==> Published(s)
  {
    forall t | 0 <= t < |s.pcs| ensures Progress(s, s.pcs[t]) {}
    if !s.init && !Untouched(s) {
      var t :| 0 <= t < |s.pcs| && Initialising(s.pcs[t]);
      assert Progress(s, s.pcs[t]);
    }
  }

  /** How many steps a thread that is inside has to the release of the lock. */
  function Rank(pc: Pc): nat {
    match pc
    case Inside => 1
    case UnlockInit => 1
    case StoreInit => 2
    case PutTlsf => 3
    case PutSlab => 4
    case PutArena => 5
    case MakeTls => 6
    case Recheck => 7
    case _ => 0
  }

  /** A taken lock comes free: one thread is inside, and at most seven steps of that thread release it. */
  lemma LockComesFree(s: State) returns (t: nat, ss: seq<State>)
    requires Inv(s) && s.lock
    ensures t < |s.pcs| && Critical(s.pcs[t]) && forall u :: 0 <= u < |s.pcs| && u != t ==> !Critical(s.pcs[u])
    ensures 2 <= |ss| <= 8 && ss[0] == s && !ss[|ss| - 1].lock
    ensures forall i :: 0 <= i < |ss| - 1 ==> Step(ss[i], t, ss[i + 1])
  {
    t :| 0 <= t < |s.pcs| && Critical(s.pcs[t]);
    ss := Releases(s, t);
  }

  lemma {:induction false} Releases(s: State, t: nat) returns (ss: seq<State>)
    requires t < |s.pcs| && Critical(s.pcs[t])
    ensures 2 <= |ss| <= Rank(s.pcs[t]) + 1 && ss[0] == s && !ss[|ss| - 1].lock
    ensures forall i :: 0 <= i < |ss| - 1 ==> Step(ss[i], t, ss[i + 1])
    decreases Rank(s.pcs[t])
  {
    var s' := Effect(s, s.pcs[t]).(pcs := s.pcs[t := NextPc(s, s.pcs[t])]);
    assert Step(s, t, s');
    hide Step;
    if Critical(s'.pcs[t]) {
      var ss' := Releases(s', t);
      ss := [s] + ss';
      forall i | 0 <= i < |ss| - 1 ensures Step(ss[i], t, ss[i + 1]) {
        if i > 0 { assert ss[i] == ss'[i - 1] && ss[i + 1] == ss'[i]; }
      }
    } else {
      ss := [s, s'];
    }
  }
}
