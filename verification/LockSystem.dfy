/** Threads that take and drop mutexes under the checker of common/lockdep.cc, with the checker's
    steps and the mutex's own steps (common/Mutex.cc) interleaved in any order. */
module LockSystem {
  import opened Basics
  import opened Graphs
  import opened Lockdep

  type MutexId = nat

  /** A live Mutex: its lock class and the thread that has it. */
  datatype Mutex = Mutex(id: nat, owner: Option<Thread>)

  /** Where a thread stands inside Lock() or Unlock(). */
  datatype Phase =
    | Idle
    | Waiting(m: MutexId)    // announced, blocked in pthread_mutex_lock
    | Got(m: MutexId)        // has the mutex, not yet noted as held
    | Releasing(m: MutexId)  // no longer noted as held, still has the mutex

  datatype System = System(checker: State, mutexes: map<MutexId, Mutex>, phases: map<Thread, Phase>)
  {
    function PhaseOf(t: Thread): Phase { if t in phases then phases[t] else Idle }
  }

  datatype Step =
    | Create(m: MutexId, name: string)
    | Destroy(m: MutexId)
    | Announce(t: Thread, m: MutexId)
    | Acquire(t: Thread)
    | TryLock(t: Thread, m: MutexId)
    | Note(t: Thread)
    | Forget(t: Thread, m: MutexId)
    | Release(t: Thread)

  /** A step that can happen. A mutex is destroyed only when nobody has it or waits for it, and a
      thread unlocks only what it has; a thread does not try a class it already has. */
  ghost predicate Enabled(s: System, step: Step) {
    match step
    case Create(m, name) => m !in s.mutexes && Registered(s.checker, name).Some?
    case Destroy(m) =>
      && m in s.mutexes
      && s.mutexes[m].owner == None
      && (forall t | t in s.phases :: s.phases[t] != Waiting(m))
      && s.mutexes[m].id in s.checker.lockNames
    case Announce(t, m) => s.PhaseOf(t) == Idle && m in s.mutexes && MayLock(s.checker, t, s.mutexes[m].id)
    case Acquire(t) => s.PhaseOf(t).Waiting? && s.PhaseOf(t).m in s.mutexes && s.mutexes[s.PhaseOf(t).m].owner == None
    case TryLock(t, m) =>
      s.PhaseOf(t) == Idle && m in s.mutexes && s.mutexes[m].owner == None && s.mutexes[m].id !in s.checker.Held(t)
    case Note(t) => s.PhaseOf(t).Got? && s.PhaseOf(t).m in s.mutexes
    case Forget(t, m) => s.PhaseOf(t) == Idle && m in s.mutexes && s.mutexes[m].owner == Some(t)
    case Release(t) => s.PhaseOf(t).Releasing? && s.PhaseOf(t).m in s.mutexes
  }

  function Owned(s: System, m: MutexId, o: Option<Thread>, t: Thread, p: Phase): System
    requires m in s.mutexes
  {
    s.(mutexes := s.mutexes[m := s.mutexes[m].(owner := o)], phases := s.phases[t := p])
  }

  ghost function Next(s: System, step: Step): System
    requires Enabled(s, step)
  {
    match step
    case Create(m, name) =>
      var (c, id) := Registered(s.checker, name).value;
      s.(checker := c, mutexes := s.mutexes[m := Mutex(id, None)])
    case Destroy(m) =>
      s.(checker := Unregistered(s.checker, s.mutexes[m].id), mutexes := s.mutexes - {m})
    case Announce(t, m) =>
      s.(checker := Announced(s.checker, t, s.mutexes[m].id), phases := s.phases[t := Waiting(m)])
    case Acquire(t) => Owned(s, s.PhaseOf(t).m, Some(t), t, Got(s.PhaseOf(t).m))
    case TryLock(t, m) => Owned(s, m, Some(t), t, Got(m))
    case Note(t) =>
      s.(checker := Noted(s.checker, t, s.mutexes[s.PhaseOf(t).m].id), phases := s.phases[t := Idle])
    case Forget(t, m) =>
      s.(checker := Forgotten(s.checker, t, s.mutexes[m].id), phases := s.phases[t := Releasing(m)])
    case Release(t) => Owned(s, s.PhaseOf(t).m, None, t, Idle)
  }

  // ------------------------------------------------------------------
  // What every step keeps

  /** A class is registered once per live mutex that uses it. */
  ghost predicate RefsCount(s: System) {
    && (forall m | m in s.mutexes :: s.mutexes[m].id in s.checker.lockNames)
    && (forall i | i in s.checker.lockRefs :: s.checker.lockRefs[i] == |Using(s.mutexes, i)|)
  }

  ghost function Using(ms: map<MutexId, Mutex>, id: nat): set<MutexId> {
    set m | m in ms && ms[m].id == id
  }

  ghost predicate PhasesOk(s: System) {
    && (forall t | t in s.phases && s.phases[t].Waiting? :: s.phases[t].m in s.mutexes)
    && (forall t | t in s.phases && (s.phases[t].Got? || s.phases[t].Releasing?) ::
          s.phases[t].m in s.mutexes && s.mutexes[s.phases[t].m].owner == Some(t))
  }

  /** Thread t has m and the checker is to know it. */
  ghost predicate Has(s: System, t: Thread, m: MutexId) {
    m in s.mutexes && s.mutexes[m].owner == Some(t) && s.PhaseOf(t) != Got(m) && s.PhaseOf(t) != Releasing(m)
  }

  /** The checker's `held` is exact. */
  ghost predicate HeldExact(s: System) {
    && (forall t, m | Has(s, t, m) :: s.mutexes[m].id in s.checker.Held(t))
    && (forall t, c | c in s.checker.Held(t) :: exists m :: Has(s, t, m) && s.mutexes[m].id == c)
  }

  /** No thread has two mutexes of one class. */
  ghost predicate OnePerClass(s: System) {
    forall m, n | m in s.mutexes && n in s.mutexes && m != n && s.mutexes[m].owner.Some? ::
      s.mutexes[m].owner == s.mutexes[n].owner ==> s.mutexes[m].id != s.mutexes[n].id
  }

  /** A waiting thread has an edge from everything it holds to what it waits for. */
  ghost predicate WaitsRecorded(s: System) {
    forall t | t in s.phases && s.phases[t].Waiting? ::
      && s.phases[t].m in s.mutexes
      && s.mutexes[s.phases[t].m].id !in s.checker.Held(t)
      && forall h | h in s.checker.Held(t) :: (h, s.mutexes[s.phases[t].m].id) in s.checker.follows
  }

  ghost predicate Inv(s: System) {
    Ok(s.checker) && RefsCount(s) && PhasesOk(s) && HeldExact(s) && OnePerClass(s) && WaitsRecorded(s)
  }

  function Start(): System {
    System(Initial(), map[], map[])
  }

  lemma StartOk()
    ensures Inv(Start())
  {
    InitialOk();
  }

  /** Steps that create and destroy nothing. */
  ghost predicate SameClasses(s: System, s': System) {
    && s'.mutexes.Keys == s.mutexes.Keys
    && (forall m | m in s.mutexes :: s'.mutexes[m].id == s.mutexes[m].id)
    && s'.checker.lockNames == s.checker.lockNames
    && s'.checker.lockRefs == s.checker.lockRefs
  }

  lemma KeepsRefs(s: System, s': System)
    requires RefsCount(s) && SameClasses(s, s')
    ensures RefsCount(s')
  {
    forall i | i in s'.checker.lockRefs ensures s'.checker.lockRefs[i] == |Using(s'.mutexes, i)| {
      assert Using(s'.mutexes, i) == Using(s.mutexes, i);
    }
  }

  /** What the checker knows and what threads are known to have both stay. */
  lemma KeepsHeld(s: System, s': System)
    requires HeldExact(s) && SameClasses(s, s') && s'.checker.held == s.checker.held
    requires forall t, m :: Has(s', t, m) <==> Has(s, t, m)
    ensures HeldExact(s')
  {
    forall t, c | c in s'.checker.Held(t) ensures exists m :: Has(s', t, m) && s'.mutexes[m].id == c {
      assert c in s.checker.Held(t);
      var m :| Has(s, t, m) && s.mutexes[m].id == c;
      assert Has(s', t, m);
    }
  }

  lemma NotRecursive(c: State, t: Thread, id: nat)
    requires MayLock(c, t, id)
    ensures id !in c.Held(t)
  {
  }

  lemma KeepsAnnounce(s: System, t: Thread, m: MutexId)
    requires Inv(s) && Enabled(s, Announce(t, m))
    ensures Inv(Next(s, Announce(t, m)))
  {
    hide NamesAgree, IdsAgree, GraphOk, HeldExact, MayLock;
    var s' := Next(s, Announce(t, m));
    AnnouncedOk(s.checker, t, s.mutexes[m].id);
    KeepsRefs(s, s');
    KeepsHeld(s, s');
    NotRecursive(s.checker, t, s.mutexes[m].id);
  }

  /** Thread t gets mutex m, of a class it does not hold. */
  lemma KeepsTaking(s: System, t: Thread, m: MutexId)
    requires Inv(s) && m in s.mutexes && s.mutexes[m].owner == None && s.mutexes[m].id !in s.checker.Held(t)
    requires s.PhaseOf(t) == Idle || s.PhaseOf(t) == Waiting(m)
    ensures Inv(Owned(s, m, Some(t), t, Got(m)))
  {
    hide NamesAgree, IdsAgree, GraphOk, HeldExact, OnePerClass;
    var s' := Owned(s, m, Some(t), t, Got(m));
    KeepsRefs(s, s');
    KeepsHeld(s, s');
    TakingOne(s, t, m);
  }

  lemma TakingOne(s: System, t: Thread, m: MutexId)
    requires OnePerClass(s) && HeldExact(s) && m in s.mutexes && s.mutexes[m].owner == None
    requires s.mutexes[m].id !in s.checker.Held(t) && (s.PhaseOf(t) == Idle || s.PhaseOf(t) == Waiting(m))
    ensures OnePerClass(Owned(s, m, Some(t), t, Got(m)))
  {
    hide HeldExact;
    forall n | n in s.mutexes && s.mutexes[n].owner == Some(t) ensures s.mutexes[n].id != s.mutexes[m].id {
      assert Has(s, t, n);
      HasIsHeld(s, t, n);
    }
  }

  lemma HasIsHeld(s: System, t: Thread, m: MutexId)
    requires HeldExact(s) && Has(s, t, m)
    ensures s.mutexes[m].id in s.checker.Held(t)
  {
  }

  lemma KeepsNote(s: System, t: Thread)
    requires Inv(s) && Enabled(s, Note(t))
    ensures Inv(Next(s, Note(t)))
  {
    hide NamesAgree, IdsAgree, GraphOk, HeldExact;
    var s', m := Next(s, Note(t)), s.PhaseOf(t).m;
    NotedOk(s.checker, t, s.mutexes[m].id);
    KeepsRefs(s, s');
    NoteHeld(s, s', t, m);
  }

  lemma NoteHeld(s: System, s': System, t: Thread, m: MutexId)
    requires HeldExact(s) && PhasesOk(s) && s.PhaseOf(t) == Got(m) && m in s.mutexes
    requires s' == s.(checker := Noted(s.checker, t, s.mutexes[m].id), phases := s.phases[t := Idle])
    ensures HeldExact(s')
  {
    forall u, n ensures Has(s', u, n) <==> Has(s, u, n) || (u == t && n == m) {
    }
    forall u, c | c in s'.checker.Held(u) ensures exists n :: Has(s', u, n) && s'.mutexes[n].id == c {
      if u == t && c == s.mutexes[m].id {
        assert Has(s', t, m);
      } else {
        assert c in s.checker.Held(u);
        var n :| Has(s, u, n) && s.mutexes[n].id == c;
        assert Has(s', u, n);
      }
    }
  }

  lemma KeepsForget(s: System, t: Thread, m: MutexId)
    requires Inv(s) && Enabled(s, Forget(t, m))
    ensures Inv(Next(s, Forget(t, m)))
  {
    hide NamesAgree, IdsAgree, GraphOk, HeldExact;
    var s' := Next(s, Forget(t, m));
    ForgottenOk(s.checker, t, s.mutexes[m].id);
    KeepsRefs(s, s');
    ForgetHeld(s, s', t, m);
  }

  lemma ForgetHeld(s: System, s': System, t: Thread, m: MutexId)
    requires HeldExact(s) && OnePerClass(s) && s.PhaseOf(t) == Idle && m in s.mutexes && s.mutexes[m].owner == Some(t)
    requires s' == s.(checker := Forgotten(s.checker, t, s.mutexes[m].id), phases := s.phases[t := Releasing(m)])
    ensures HeldExact(s')
  {
    forall u, n ensures Has(s', u, n) <==> Has(s, u, n) && !(u == t && n == m) {
    }
    forall u, c | c in s'.checker.Held(u) ensures exists n :: Has(s', u, n) && s'.mutexes[n].id == c {
      assert c in s.checker.Held(u);
      var n :| Has(s, u, n) && s.mutexes[n].id == c;
      assert Has(s', u, n);
    }
  }

  lemma KeepsRelease(s: System, t: Thread)
    requires Inv(s) && Enabled(s, Release(t))
    ensures Inv(Next(s, Release(t)))
  {
    hide NamesAgree, IdsAgree, GraphOk, HeldExact, OnePerClass;
    var s' := Next(s, Release(t));
    KeepsRefs(s, s');
    KeepsHeld(s, s');
    ReleasingOne(s, t, s.PhaseOf(t).m);
  }

  lemma ReleasingOne(s: System, t: Thread, m: MutexId)
    requires OnePerClass(s) && m in s.mutexes
    ensures OnePerClass(Owned(s, m, None, t, Idle))
  {
  }

  lemma KeepsCreate(s: System, m: MutexId, name: string)
    requires Inv(s) && Enabled(s, Create(m, name))
    ensures Inv(Next(s, Create(m, name)))
  {
    hide NamesAgree, IdsAgree, GraphOk, HeldExact, Registered, RefsCount, Enabled;
    CreateRefs(s, m, name);
    CreateKeeps(s, m, name);
    var s' := Next(s, Create(m, name));
    CreateHeld(s, s', m);
  }

  lemma CreateKeeps(s: System, m: MutexId, name: string)
    requires Ok(s.checker) && RefsCount(s) && Enabled(s, Create(m, name))
    ensures var s' := Next(s, Create(m, name));
            && Ok(s'.checker)
            && s'.checker.held == s.checker.held && s'.checker.follows == s.checker.follows
            && m !in s.mutexes && s'.phases == s.phases && s'.mutexes == s.mutexes[m := s'.mutexes[m]] && s'.mutexes[m].owner == None
  {
    hide NamesAgree, IdsAgree, GraphOk;
    RegisteredOk(s.checker, name);
  }

  /** What registering does to the counts. */
  lemma RegisteredRefs(c: State, name: string)
    requires NamesAgree(c) && IdsAgree(c) && Registered(c, name).Some?
    ensures var (c', id) := Registered(c, name).value;
            && c'.lockRefs.Keys == c.lockRefs.Keys + {id} == c'.lockNames.Keys
            && c.lockNames.Keys == c.lockRefs.Keys <= c'.lockNames.Keys
            && (forall i | i in c'.lockRefs && i != id :: i in c.lockRefs && c'.lockRefs[i] == c.lockRefs[i])
            && c'.lockRefs[id] == 1 + (if id in c.lockNames then c.lockRefs[id] else 0)
  {
    if name !in c.lockIds {
      FreshId(c);
    }
  }

  lemma CreateRefs(s: System, m: MutexId, name: string)
    requires Ok(s.checker) && RefsCount(s) && Enabled(s, Create(m, name))
    ensures RefsCount(Next(s, Create(m, name)))
  {
    hide NamesAgree, IdsAgree, GraphOk, Registered, Using;
    RegisteredRefs(s.checker, name);
    var s' := Next(s, Create(m, name));
    var id := s'.mutexes[m].id;
    forall i | i in s'.checker.lockRefs ensures s'.checker.lockRefs[i] == |Using(s'.mutexes, i)| {
      UsingMore(s.mutexes, m, s'.mutexes[m], i);
      if i == id && id !in s.checker.lockNames {
        FreshUnused(s, id);
      }
    }
  }

  lemma UsingMore(ms: map<MutexId, Mutex>, m: MutexId, mutex: Mutex, i: nat)
    requires m !in ms
    ensures |Using(ms[m := mutex], i)| == |Using(ms, i)| + if mutex.id == i then 1 else 0
  {
    if mutex.id == i {
      assert Using(ms[m := mutex], i) == Using(ms, i) + {m};
    } else {
      assert Using(ms[m := mutex], i) == Using(ms, i);
    }
  }

  lemma FreshId(c: State)
    requires IdsAgree(c) && c.freeIds != []
    ensures c.freeIds[0] !in c.lockNames
  {
    assert c.freeIds[0] in c.freeIds;
  }

  lemma FreshUnused(s: System, id: nat)
    requires RefsCount(s) && id !in s.checker.lockNames
    ensures Using(s.mutexes, id) == {}
  {
  }

  lemma CreateHeld(s: System, s': System, m: MutexId)
    requires HeldExact(s) && m !in s.mutexes && m in s'.mutexes && s'.mutexes[m].owner == None
    requires s'.mutexes == s.mutexes[m := s'.mutexes[m]] && s'.phases == s.phases && s'.checker.held == s.checker.held
    ensures HeldExact(s')
  {
    forall t, n ensures Has(s', t, n) <==> Has(s, t, n) {
    }
    forall t, c | c in s'.checker.Held(t) ensures exists n :: Has(s', t, n) && s'.mutexes[n].id == c {
      assert c in s.checker.Held(t);
      var n :| Has(s, t, n) && s.mutexes[n].id == c;
      assert Has(s', t, n);
    }
  }

  /** The last mutex of a class is nobody's: the class is neither held nor awaited. */
  lemma LastOfClass(s: System, m: MutexId, n: MutexId)
    requires RefsCount(s) && NamesAgree(s.checker) && m in s.mutexes && s.checker.lockRefs[s.mutexes[m].id] == 1
    requires n in s.mutexes && s.mutexes[n].id == s.mutexes[m].id
    ensures n == m
  {
    var using := Using(s.mutexes, s.mutexes[m].id);
    assert m in using && n in using && |using| == 1;
    if n != m {
      Two(using, m, n);
      assert false;
    }
  }

  lemma Two(s: set<MutexId>, a: MutexId, b: MutexId)
    requires a in s && b in s && a != b
    ensures |s| >= 2
  {
    assert s == {a, b} + (s - {a, b});
  }

  lemma NotHeld(s: System, m: MutexId, t: Thread)
    requires Inv(s) && Enabled(s, Destroy(m)) && s.checker.lockRefs[s.mutexes[m].id] == 1
    ensures s.mutexes[m].id !in s.checker.Held(t)
  {
    hide IdsAgree, GraphOk, WaitsRecorded;
    if s.mutexes[m].id in s.checker.Held(t) {
      var n :| Has(s, t, n) && s.mutexes[n].id == s.mutexes[m].id;
      LastOfClass(s, m, n);
    }
  }

  lemma KeepsDestroy(s: System, m: MutexId)
    requires Inv(s) && Enabled(s, Destroy(m))
    ensures Inv(Next(s, Destroy(m)))
  {
    hide IdsAgree, GraphOk, HeldExact, RefsCount, WaitsRecorded, Unregistered;
    var s', id := Next(s, Destroy(m)), s.mutexes[m].id;
    assert id in s.checker.lockNames by {
      ClassKnown(s, m);
    }
    if s.checker.lockRefs[id] == 1 {
      forall t | t in s.checker.held ensures id !in s.checker.held[t] {
        NotHeld(s, m, t);
        assert s.checker.Held(t) == s.checker.held[t];
      }
    }
    UnregisteredOk(s.checker, id);
    DestroyRefs(s, m);
    DestroyHeld(s, m);
    DestroyWaits(s, m);
  }

  lemma ClassKnown(s: System, m: MutexId)
    requires RefsCount(s) && m in s.mutexes
    ensures s.mutexes[m].id in s.checker.lockNames
  {
  }

  lemma UsingLess(ms: map<MutexId, Mutex>, m: MutexId, i: nat)
    requires m in ms
    ensures |Using(ms - {m}, i)| == |Using(ms, i)| - if ms[m].id == i then 1 else 0
  {
    if ms[m].id == i {
      assert Using(ms - {m}, i) == Using(ms, i) - {m};
    } else {
      assert Using(ms - {m}, i) == Using(ms, i);
    }
  }

  lemma DestroyRefs(s: System, m: MutexId)
    requires Ok(s.checker) && RefsCount(s) && Enabled(s, Destroy(m))
    ensures RefsCount(Next(s, Destroy(m)))
  {
    hide IdsAgree, GraphOk, Using;
    var s', id := Next(s, Destroy(m)), s.mutexes[m].id;
    forall i | i in s'.checker.lockRefs ensures s'.checker.lockRefs[i] == |Using(s'.mutexes, i)| {
      UsingLess(s.mutexes, m, i);
    }
    if s.checker.lockRefs[id] == 1 {
      forall n | n in s'.mutexes ensures s'.mutexes[n].id != id {
        if s.mutexes[n].id == id {
          LastOfClass(s, m, n);
        }
      }
    }
  }

  lemma DestroyHeld(s: System, m: MutexId)
    requires Ok(s.checker) && RefsCount(s) && HeldExact(s) && Enabled(s, Destroy(m))
    ensures HeldExact(Next(s, Destroy(m)))
  {
    hide IdsAgree, GraphOk, RefsCount;
    var s' := Next(s, Destroy(m));
    forall t, n ensures Has(s', t, n) <==> Has(s, t, n) {
    }
    forall t, c | c in s'.checker.Held(t) ensures exists n :: Has(s', t, n) && s'.mutexes[n].id == c {
      assert c in s.checker.Held(t);
      var n :| Has(s, t, n) && s.mutexes[n].id == c;
      assert Has(s', t, n);
    }
  }

  lemma DestroyWaits(s: System, m: MutexId)
    requires Inv(s) && Enabled(s, Destroy(m))
    ensures WaitsRecorded(Next(s, Destroy(m)))
  {
    hide IdsAgree, GraphOk, HeldExact, RefsCount, OnePerClass;
    var s', id := Next(s, Destroy(m)), s.mutexes[m].id;
    forall t | t in s'.phases && s'.phases[t].Waiting?
      ensures var n := s'.phases[t].m;
              && n in s'.mutexes && s'.mutexes[n].id !in s'.checker.Held(t)
              && forall h | h in s'.checker.Held(t) :: (h, s'.mutexes[n].id) in s'.checker.follows
    {
      var n := s.phases[t].m;
      ClassKnown(s, m);
      if s.checker.lockRefs[id] == 1 {
        NotHeld(s, m, t);
        if s.mutexes[n].id == id {
          LastOfClass(s, m, n);
          assert false;
        }
      }
    }
  }

  /** Every step keeps the invariant. */
  lemma Keeps(s: System, step: Step)
    requires Inv(s) && Enabled(s, step)
    ensures Inv(Next(s, step))
  {
    hide Ok, RefsCount, PhasesOk, HeldExact, OnePerClass;
    match step {
      case Create(m, name) => KeepsCreate(s, m, name);
      case Destroy(m) => KeepsDestroy(s, m);
      case Announce(t, m) => KeepsAnnounce(s, t, m);
      case Acquire(t) => KeepsTaking(s, t, s.PhaseOf(t).m);
      case TryLock(t, m) => KeepsTaking(s, t, m);
      case Note(t) => KeepsNote(s, t);
      case Forget(t, m) => KeepsForget(s, t, m);
      case Release(t) => KeepsRelease(s, t);
    }
  }

  // ------------------------------------------------------------------
  // Whole runs

  /** A run: the states it goes through and the step taken in each. */
  ghost predicate Run(states: seq<System>, steps: seq<Step>) {
    && |states| == |steps| + 1
    && states[0] == Start()
    && forall i | 0 <= i < |steps| :: Enabled(states[i], steps[i]) && states[i + 1] == Next(states[i], steps[i])
  }

  lemma {:induction false} RunKeeps(states: seq<System>, steps: seq<Step>, k: nat)
    requires Run(states, steps) && k < |states|
    ensures Inv(states[k])
  {
    if k == 0 {
      StartOk();
    } else {
      RunKeeps(states, steps, k - 1);
      Keeps(states[k - 1], steps[k - 1]);
    }
  }

  /** t waits for a mutex that some thread of ts has. */
  ghost predicate Blocked(s: System, ts: set<Thread>, t: Thread) {
    && s.PhaseOf(t).Waiting?
    && s.PhaseOf(t).m in s.mutexes
    && s.mutexes[s.PhaseOf(t).m].owner.Some?
    && s.mutexes[s.PhaseOf(t).m].owner.value in ts
  }

  /** From a blocked thread, the chain of owners leads to one that is not blocked: each link is an
      edge of the graph, and the graph has no cycle. */
  lemma {:induction false} FollowOwners(s: System, ts: set<Thread>, t: Thread) returns (free: Thread)
    requires Inv(s) && t in ts
    ensures free in ts && !Blocked(s, ts, free)
    decreases if s.PhaseOf(t).Waiting? && s.PhaseOf(t).m in s.mutexes
              then 1 + |Reach(s.checker.follows, s.mutexes[s.PhaseOf(t).m].id)| else 0
  {
    hide NamesAgree, IdsAgree, RefsCount, OnePerClass, Reach;
    if !Blocked(s, ts, t) {
      return t;
    }
    var m := s.PhaseOf(t).m;
    var u := s.mutexes[m].owner.value;
    if Blocked(s, ts, u) {
      assert Has(s, u, m);
      OkInRange(s.checker);
      ReachShrinks(s.checker.follows, s.mutexes[m].id, s.mutexes[s.PhaseOf(u).m].id);
      free := FollowOwners(s, ts, u);
    } else {
      return u;
    }
  }

  /** In every state of every run the graph is acyclic, and in every set of threads there is one
      that does not wait for a mutex another of them has: no circular wait. */
  lemma NeverCircular(states: seq<System>, steps: seq<Step>, k: nat, ts: set<Thread>)
    requires Run(states, steps) && k < |states| && ts != {}
    ensures Acyclic(states[k].checker.follows)
    ensures exists t | t in ts :: !Blocked(states[k], ts, t)
  {
    RunKeeps(states, steps, k);
    var t :| t in ts;
    var free := FollowOwners(states[k], ts, t);
  }

  // ------------------------------------------------------------------
  // What the steps say

  predicate OfThread(step: Step, t: Thread) {
    (step.Announce? || step.Acquire? || step.TryLock? || step.Note? || step.Forget? || step.Release?) && step.t == t
  }

  /** The mutex a thread has announced or tried last. */
  function Wanted(steps: seq<Step>, t: Thread): Option<MutexId> {
    if steps == [] then None
    else
      var step := steps[|steps| - 1];
      if (step.Announce? || step.TryLock?) && step.t == t then Some(step.m) else Wanted(steps[..|steps| - 1], t)
  }

  /** Where a thread stands: what its last step says, with the mutex it wants. */
  function StandsAt(steps: seq<Step>, t: Thread): Option<Phase> {
    if steps == [] then Some(Idle)
    else
      var before, step := steps[..|steps| - 1], steps[|steps| - 1];
      if !OfThread(step, t) then StandsAt(before, t)
      else
        match step
        case Announce(_, m) => Some(Waiting(m))
        case Acquire(_) => if Wanted(before, t).Some? then Some(Got(Wanted(before, t).value)) else None
        case TryLock(_, m) => Some(Got(m))
        case Forget(_, m) => Some(Releasing(m))
        case _ => Some(Idle)
  }

  lemma {:induction false} ThreadsFollowSteps(states: seq<System>, steps: seq<Step>, k: nat, t: Thread)
    requires Run(states, steps) && k <= |steps|
    ensures StandsAt(steps[..k], t) == Some(states[k].PhaseOf(t))
    ensures states[k].PhaseOf(t).Waiting? ==> Wanted(steps[..k], t) == Some(states[k].PhaseOf(t).m)
    decreases k
  {
    hide Next, Enabled;
    if k > 0 {
      assert steps[..k][..k - 1] == steps[..k - 1];
      ThreadsFollowSteps(states, steps, k - 1, t);
      ThreadMoves(states[k - 1], steps[k - 1], t);
    }
  }

  lemma ThreadMoves(s: System, step: Step, t: Thread)
    requires Enabled(s, step)
    ensures var p := Next(s, step).PhaseOf(t);
            if !OfThread(step, t) then p == s.PhaseOf(t)
            else
              match step
              case Announce(_, m) => p == Waiting(m)
              case Acquire(_) => s.PhaseOf(t).Waiting? && p == Got(s.PhaseOf(t).m)
              case TryLock(_, m) => p == Got(m)
              case Forget(_, m) => p == Releasing(m)
              case _ => p == Idle
  {
    hide MayLock;
  }

  /** A mutex is there from its creation to its destruction, and a thread has it exactly from the step that
      acquires it, by waiting or trying, to the one that releases it. */
  lemma OwnedExactly(s: System, step: Step, m: MutexId, t: Thread)
    requires Enabled(s, step)
    ensures m in Next(s, step).mutexes <==> (m in s.mutexes && step != Destroy(m)) || (step.Create? && step.m == m)
    ensures m in Next(s, step).mutexes ==>
              (Next(s, step).mutexes[m].owner == Some(t) <==>
                 || (m in s.mutexes && s.mutexes[m].owner == Some(t) && !(step.Release? && s.PhaseOf(step.t) == Releasing(m)))
                 || (step == Acquire(t) && s.PhaseOf(t) == Waiting(m))
                 || step == TryLock(t, m))
  {
    hide MayLock;
  }

  /** The edges are exactly those from what a thread held to what it announced, as long as both classes
      are in use. */
  lemma EdgesExactly(s: System, step: Step, e: (nat, nat))
    requires Inv(s) && Enabled(s, step)
    ensures e in Next(s, step).checker.follows <==>
              || (&& e in s.checker.follows
                  && !(step.Destroy? && Using(s.mutexes - {step.m}, s.mutexes[step.m].id) == {}
                       && (e.0 == s.mutexes[step.m].id || e.1 == s.mutexes[step.m].id)))
              || (step.Announce? && e.1 == s.mutexes[step.m].id && e.0 in s.checker.Held(step.t))
  {
    hide MayLock, HeldExact, OnePerClass, WaitsRecorded, PhasesOk, GraphOk, IdsAgree;
    if step.Destroy? {
      var id := s.mutexes[step.m].id;
      assert Using(s.mutexes, id) == Using(s.mutexes - {step.m}, id) + {step.m};
    }
  }

  /** In every run two mutexes are of one class exactly if they were created with the same name. */
  lemma {:induction false} CreatedWithName(states: seq<System>, steps: seq<Step>, k: nat, m: MutexId) returns (i: nat)
    requires Run(states, steps) && k <= |steps| && m in states[k].mutexes
    ensures i < k && steps[i].Create? && steps[i].m == m && Destroy(m) !in steps[i + 1..k]
    ensures var id := states[k].mutexes[m].id; id in states[k].checker.lockNames && states[k].checker.lockNames[id] == steps[i].name
    decreases k
  {
    hide Next, Enabled, Inv;
    RunKeeps(states, steps, k - 1);
    var s, step := states[k - 1], steps[k - 1];
    OwnedExactly(s, step, m, 0);
    if step.Create? && step.m == m {
      i := k - 1;
      NamedOnCreation(s, m, step.name);
    } else {
      i := CreatedWithName(states, steps, k - 1, m);
      assert steps[i + 1..k] == steps[i + 1..k - 1] + [step];
      NameKept(s, step, m);
    }
  }

  lemma NamedOnCreation(s: System, m: MutexId, name: string)
    requires Inv(s) && Enabled(s, Create(m, name))
    ensures var s' := Next(s, Create(m, name));
            m in s'.mutexes && s'.mutexes[m].id in s'.checker.lockNames && s'.checker.lockNames[s'.mutexes[m].id] == name
  {
    hide HeldExact, OnePerClass, WaitsRecorded, PhasesOk, GraphOk, RefsCount;
  }

  lemma NamesStay(s: System, step: Step, id: nat)
    requires IdsAgree(s.checker) && Enabled(s, step) && id in s.checker.lockNames && id in Next(s, step).checker.lockNames
    ensures Next(s, step).checker.lockNames[id] == s.checker.lockNames[id]
  {
    hide IdsAgree, MayLock;
    if step.Create? && s.checker.freeIds != [] {
      FreshId(s.checker);
    }
  }

  lemma IdStays(s: System, step: Step, m: MutexId)
    requires Enabled(s, step) && m in s.mutexes && m in Next(s, step).mutexes && !(step.Create? && step.m == m)
    ensures Next(s, step).mutexes[m].id == s.mutexes[m].id
  {
    hide MayLock;
  }

  lemma NameKept(s: System, step: Step, m: MutexId)
    requires Inv(s) && Enabled(s, step) && m in s.mutexes && m in Next(s, step).mutexes && !(step.Create? && step.m == m)
    ensures var s' := Next(s, step);
            && s'.mutexes[m].id == s.mutexes[m].id && s'.mutexes[m].id in s'.checker.lockNames
            && s.mutexes[m].id in s.checker.lockNames
            && s'.checker.lockNames[s'.mutexes[m].id] == s.checker.lockNames[s.mutexes[m].id]
  {
    hide Next, Enabled, HeldExact, OnePerClass, WaitsRecorded, PhasesOk, GraphOk, IdsAgree, NamesAgree;
    Keeps(s, step);
    IdStays(s, step, m);
    NamesStay(s, step, s.mutexes[m].id);
  }

  lemma SameClassSameName(states: seq<System>, steps: seq<Step>, k: nat, m: MutexId, n: MutexId) returns (i: nat, j: nat)
    requires Run(states, steps) && k <= |steps| && m in states[k].mutexes && n in states[k].mutexes
    ensures i < k && steps[i].Create? && steps[i].m == m && Destroy(m) !in steps[i + 1..k]
    ensures j < k && steps[j].Create? && steps[j].m == n && Destroy(n) !in steps[j + 1..k]
    ensures states[k].mutexes[m].id == states[k].mutexes[n].id <==> steps[i].name == steps[j].name
  {
    hide Next, Enabled;
    RunKeeps(states, steps, k);
    i := CreatedWithName(states, steps, k, m);
    j := CreatedWithName(states, steps, k, n);
  }

  // ------------------------------------------------------------------
  // Trying a class one already has

  /** A step that can happen when a thread may also try a mutex of a class it already has, which the
      code lets it. */
  ghost predicate Possible(s: System, step: Step) {
    match step
    case TryLock(t, m) => s.PhaseOf(t) == Idle && m in s.mutexes && s.mutexes[m].owner == None
    case _ => Enabled(s, step)
  }

  ghost function After(s: System, step: Step): System
    requires Possible(s, step)
  {
    match step
    case TryLock(t, m) => Owned(s, m, Some(t), t, Got(m))
    case _ => Next(s, step)
  }

  ghost predicate Leads(s: System, steps: seq<Step>, s': System)
    decreases |steps|
  {
    if steps == [] then s == s'
    else Possible(s, steps[0]) && Leads(After(s, steps[0]), steps[1..], s')
  }

  lemma {:induction false} LeadsOn(s: System, steps: seq<Step>, s': System, step: Step)
    requires Leads(s, steps, s') && Possible(s', step)
    ensures Leads(s, steps + [step], After(s', step))
    decreases |steps|
  {
    hide Possible, After;
    if steps == [] {
      assert (steps + [step])[1..] == [];
    } else {
      assert (steps + [step])[1..] == steps[1..] + [step];
      LeadsOn(After(s, steps[0]), steps[1..], s', step);
    }
  }

  lemma NoEdgesNoPath(f: Edges, a: nat, b: nat)
    requires f == {}
    ensures !Path(f, a, b)
  {
    if Path(f, a, b) {
      var x := PathFirst(f, a, b);
    }
  }

  /** Mutexes 0 and 1 of class i and mutex 2 of class j, with their owners; no edge in the graph; and
      what threads 0 and 1 hold as far as the checker knows, and do. */
  datatype Scene = Scene(i: nat, j: nat, owner0: Option<Thread>, owner1: Option<Thread>, owner2: Option<Thread>,
                         held0: set<nat>, held1: set<nat>, phase0: Phase, phase1: Phase)

  ghost predicate Shows(s: System, x: Scene) {
    && x.i != x.j
    && s.mutexes == map[0 := Mutex(x.i, x.owner0), 1 := Mutex(x.i, x.owner1), 2 := Mutex(x.j, x.owner2)]
    && s.checker.follows == {}
    && s.checker.Held(0) == x.held0 && s.checker.Held(1) == x.held1
    && s.PhaseOf(0) == x.phase0 && s.PhaseOf(1) == x.phase1
  }

  lemma ThreeMutexes() returns (steps: seq<Step>, s: System)
    ensures Leads(Start(), steps, s) && Shows(s, Scene(0, 1, None, None, None, {}, {}, Idle, Idle))
  {
    var s0 := Start();
    var s1 := After(s0, Create(0, "a"));
    var s2 := After(s1, Create(1, "a"));
    assert s0.checker.freeIds == UpTo(MAX_LOCKS) && s0.checker.freeIds[1..][0] == 1;
    assert "a" != "b" by { assert "a"[0] != "b"[0]; }
    s := After(s2, Create(2, "b"));
    steps := [Create(0, "a"), Create(1, "a"), Create(2, "b")];
    assert steps[1..] == [Create(1, "a"), Create(2, "b")] && steps[1..][1..] == [Create(2, "b")];
    assert steps[1..][1..][1..] == [];
  }

  /** Thread 0 locks mutex 0 and then tries mutex 1. */
  lemma TakesBoth(s0: System, before: seq<Step>, s: System, i: nat, j: nat) returns (steps: seq<Step>, s': System)
    requires Leads(s0, before, s) && Shows(s, Scene(i, j, None, None, None, {}, {}, Idle, Idle))
    ensures Leads(s0, steps, s') && Shows(s', Scene(i, j, Some(0), Some(0), None, {i}, {}, Idle, Idle))
  {
    hide Leads;
    steps, s' := Locks0(s0, before, s, Scene(i, j, None, None, None, {}, {}, Idle, Idle));
    LeadsOn(s0, steps, s', TryLock(0, 1));
    steps, s' := steps + [TryLock(0, 1)], After(s', TryLock(0, 1));
    LeadsOn(s0, steps, s', Note(0));
    steps, s' := steps + [Note(0)], After(s', Note(0));
  }

  lemma Announces0(s: System, x: Scene)
    requires Shows(s, x) && x.held0 == {} && x.phase0 == Idle
    ensures Possible(s, Announce(0, 0)) && Shows(After(s, Announce(0, 0)), x.(phase0 := Waiting(0)))
  {
  }

  lemma Acquires0(s: System, x: Scene)
    requires Shows(s, x) && x.owner0 == None && x.phase0 == Waiting(0)
    ensures Possible(s, Acquire(0)) && Shows(After(s, Acquire(0)), x.(owner0 := Some(0), phase0 := Got(0)))
  {
  }

  lemma Notes0(s: System, x: Scene)
    requires Shows(s, x) && x.phase0 == Got(0)
    ensures Possible(s, Note(0)) && Shows(After(s, Note(0)), x.(held0 := x.held0 + {x.i}, phase0 := Idle))
  {
  }

  /** Thread 0, which holds nothing, locks mutex 0. */
  lemma Locks0(s0: System, before: seq<Step>, s: System, x: Scene) returns (steps: seq<Step>, s': System)
    requires Leads(s0, before, s) && Shows(s, x) && x.owner0 == None && x.held0 == {} && x.phase0 == Idle
    ensures Leads(s0, steps, s') && Shows(s', x.(owner0 := Some(0), held0 := {x.i}))
  {
    hide Leads, Shows, Possible, After;
    Announces0(s, x);
    LeadsOn(s0, before, s, Announce(0, 0));
    steps, s' := before + [Announce(0, 0)], After(s, Announce(0, 0));
    Acquires0(s', x.(phase0 := Waiting(0)));
    LeadsOn(s0, steps, s', Acquire(0));
    steps, s' := steps + [Acquire(0)], After(s', Acquire(0));
    Notes0(s', x.(owner0 := Some(0), phase0 := Got(0)));
    LeadsOn(s0, steps, s', Note(0));
    steps, s' := steps + [Note(0)], After(s', Note(0));
    assert {} + {x.i} == {x.i};
  }

  /** Thread 1, which holds nothing, locks mutex 2. */
  lemma Locks2(s0: System, before: seq<Step>, s: System, x: Scene) returns (steps: seq<Step>, s': System)
    requires Leads(s0, before, s) && Shows(s, x) && x.owner2 == None && x.held1 == {} && x.phase1 == Idle
    ensures Leads(s0, steps, s') && Shows(s', x.(owner2 := Some(1), held1 := {x.j}))
  {
    hide Leads;
    LeadsOn(s0, before, s, Announce(1, 2));
    steps, s' := before + [Announce(1, 2)], After(s, Announce(1, 2));
    LeadsOn(s0, steps, s', Acquire(1));
    steps, s' := steps + [Acquire(1)], After(s', Acquire(1));
    LeadsOn(s0, steps, s', Note(1));
    steps, s' := steps + [Note(1)], After(s', Note(1));
  }

  lemma Forgets0(s: System, x: Scene)
    requires Shows(s, x) && x.owner0 == Some(0) && x.phase0 == Idle
    ensures Possible(s, Forget(0, 0)) && Shows(After(s, Forget(0, 0)), x.(held0 := x.held0 - {x.i}, phase0 := Releasing(0)))
  {
  }

  lemma Releases0(s: System, x: Scene)
    requires Shows(s, x) && x.phase0 == Releasing(0)
    ensures Possible(s, Release(0)) && Shows(After(s, Release(0)), x.(owner0 := None, phase0 := Idle))
  {
  }

  /** It unlocks mutex 0, and the checker believes that it holds nothing. */
  lemma LosesTrack(s0: System, before: seq<Step>, s: System, i: nat, j: nat) returns (steps: seq<Step>, s': System)
    requires Leads(s0, before, s) && Shows(s, Scene(i, j, Some(0), Some(0), None, {i}, {}, Idle, Idle))
    ensures Leads(s0, steps, s') && Shows(s', Scene(i, j, None, Some(0), None, {}, {}, Idle, Idle))
  {
    hide Leads, Shows, Possible, After;
    var x := Scene(i, j, Some(0), Some(0), None, {i}, {}, Idle, Idle);
    Forgets0(s, x);
    LeadsOn(s0, before, s, Forget(0, 0));
    steps, s' := before + [Forget(0, 0)], After(s, Forget(0, 0));
    assert {i} - {i} == {};
    Releases0(s', x.(held0 := {}, phase0 := Releasing(0)));
    LeadsOn(s0, steps, s', Release(0));
    steps, s' := steps + [Release(0)], After(s', Release(0));
  }

  /** Each waits for what the other has, and neither announcement is refused. */
  lemma BothWait(s0: System, before: seq<Step>, s: System, i: nat, j: nat) returns (steps: seq<Step>, s': System)
    requires Leads(s0, before, s) && Shows(s, Scene(i, j, None, Some(0), Some(1), {}, {j}, Idle, Idle))
    ensures Leads(s0, steps, s') && Blocked(s', {0, 1}, 0) && Blocked(s', {0, 1}, 1)
  {
    hide Leads;
    LeadsOn(s0, before, s, Announce(0, 2));
    steps, s' := before + [Announce(0, 2)], After(s, Announce(0, 2));
    assert Shows(s', Scene(i, j, None, Some(0), Some(1), {}, {j}, Waiting(2), Idle));
    NoEdgesNoPath(s'.checker.follows, i, j);
    LeadsOn(s0, steps, s', Announce(1, 1));
    steps, s' := steps + [Announce(1, 1)], After(s', Announce(1, 1));
  }

  /** The condition on TryLock is needed: without it there is a run to a circular wait that will_lock
      lets happen. A thread that tries a second mutex of a class it holds gets it unannounced, and
      unlocking the first makes the checker forget that it holds the second. */
  lemma TryingAHeldClassDeadlocks() returns (steps: seq<Step>, s: System)
    ensures Leads(Start(), steps, s)
    ensures forall t | t in {0, 1} :: Blocked(s, {0, 1}, t)
  {
    hide Leads, Shows, Blocked;
    steps, s := ThreeMutexes();
    steps, s := TakesBoth(Start(), steps, s, 0, 1);
    steps, s := LosesTrack(Start(), steps, s, 0, 1);
    steps, s := Locks2(Start(), steps, s, Scene(0, 1, None, Some(0), None, {}, {}, Idle, Idle));
    steps, s := BothWait(Start(), steps, s, 0, 1);
  }
}
