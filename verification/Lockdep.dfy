/** The lock-order checker of common/lockdep.cc: a graph over lock classes that every announced
    acquisition extends, and that must stay free of cycles. */
module Lockdep {
  import opened Basics
  import opened Graphs

  const MAX_LOCKS: nat := 2000

  type Thread = nat

  ghost predicate InRange(f: Edges) {
    forall e | e in f :: e.0 < MAX_LOCKS && e.1 < MAX_LOCKS
  }

  lemma NoPath(f: Edges, a: nat, b: nat)
    requires InRange(f) && (a, b) !in f
    requires forall k | 0 <= k < MAX_LOCKS && (a, k) in f :: !Path(f, k, b)
    ensures !Path(f, a, b)
  {
    if Path(f, a, b) {
      var k := PathFirst(f, a, b);
    }
  }

  // ------------------------------------------------------------------
  // The checker's state and what its operations do to it

  datatype State = State(lockIds: map<string, nat>, lockNames: map<nat, string>, lockRefs: map<nat, nat>,
                         freeIds: seq<nat>, held: map<Thread, set<nat>>, follows: Edges)
  {
    function Held(t: Thread): set<nat> { if t in held then held[t] else {} }
  }

  /** The state lockdep_register_ceph_context starts from. */
  function Initial(): State {
    State(map[], map[], map[], UpTo(MAX_LOCKS), map[], {})
  }

  lemma InitialOk()
    ensures Ok(Initial())
  {
    var s := Initial();
    forall a ensures !Path(s.follows, a, a) {
      if Path(s.follows, a, a) {
        var e := PathFirst(s.follows, a, a);
        assert false;
      }
    }
    forall k: nat | k < MAX_LOCKS ensures k in s.freeIds {
      assert s.freeIds[k] == k;
    }
  }

  ghost predicate NamesAgree(s: State) {
    && (forall n | n in s.lockIds :: s.lockIds[n] in s.lockNames && s.lockNames[s.lockIds[n]] == n)
    && (forall i | i in s.lockNames :: s.lockNames[i] in s.lockIds && s.lockIds[s.lockNames[i]] == i)
    && s.lockRefs.Keys == s.lockNames.Keys
    && (forall i | i in s.lockRefs :: s.lockRefs[i] > 0)
  }

  ghost predicate IdsAgree(s: State) {
    && (forall i, j | 0 <= i < j < |s.freeIds| :: s.freeIds[i] != s.freeIds[j])
    && (forall i: nat :: i in s.lockNames <==> i < MAX_LOCKS && i !in s.freeIds)
    && (forall i | 0 <= i < |s.freeIds| :: s.freeIds[i] < MAX_LOCKS)
  }

  /** Only registered classes are held or have edges, and the graph has no cycle. */
  ghost predicate GraphOk(s: State) {
    && (forall e | e in s.follows :: e.0 in s.lockNames && e.1 in s.lockNames)
    && (forall t | t in s.held :: s.held[t] <= s.lockNames.Keys)
    && Acyclic(s.follows)
  }

  ghost predicate Ok(s: State) {
    NamesAgree(s) && IdsAgree(s) && GraphOk(s)
  }

  lemma OkInRange(s: State)
    requires Ok(s)
    ensures InRange(s.follows)
  {
    forall e | e in s.follows ensures e.0 < MAX_LOCKS && e.1 < MAX_LOCKS {
      assert e.0 in s.lockNames && e.1 in s.lockNames;
    }
  }

  /** lockdep_will_lock lets thread t pass. */
  ghost predicate MayLock(s: State, t: Thread, id: nat) {
    id !in s.Held(t) && forall h | h in s.Held(t) :: !Path(s.follows, id, h)
  }

  function Into(hs: set<nat>, c: nat): Edges {
    set h | h in hs :: (h, c)
  }

  lemma IntoMore(f: Edges, done: set<nat>, h: nat, c: nat)
    ensures f + Into(done, c) + {(h, c)} == f + Into(done + {h}, c)
  {
  }

  lemma IntoNone(f: Edges, hs: set<nat>, c: nat)
    requires hs == {}
    ensures f + Into(hs, c) == f
  {
  }

  ghost function Announced(s: State, t: Thread, id: nat): State {
    s.(follows := s.follows + Into(s.Held(t), id))
  }

  function Noted(s: State, t: Thread, id: nat): State {
    s.(held := s.held[t := s.Held(t) + {id}])
  }

  function Forgotten(s: State, t: Thread, id: nat): State {
    s.(held := s.held[t := s.Held(t) - {id}])
  }

  /** lockdep_register; None is the failed assertion that ids have run out. */
  function Registered(s: State, name: string): Option<(State, nat)> {
    if name in s.lockIds then
      var id := s.lockIds[name];
      Some((s.(lockRefs := s.lockRefs[id := 1 + if id in s.lockRefs then s.lockRefs[id] else 0]), id))
    else if s.freeIds == [] then None
    else
      var id := s.freeIds[0];
      Some((s.(freeIds := s.freeIds[1..], lockIds := s.lockIds[name := id], lockNames := s.lockNames[id := name],
               lockRefs := s.lockRefs[id := 1 + if id in s.lockRefs then s.lockRefs[id] else 0]), id))
  }

  function Unregistered(s: State, id: nat): State
    requires id in s.lockNames
  {
    if id in s.lockRefs && s.lockRefs[id] > 1 then s.(lockRefs := s.lockRefs[id := s.lockRefs[id] - 1])
    else
      s.(follows := (set e | e in s.follows && e.0 != id && e.1 != id),
         lockIds := s.lockIds - {s.lockNames[id]},
         lockNames := s.lockNames - {id},
         lockRefs := s.lockRefs - {id},
         freeIds := s.freeIds + [id])
  }

  /** Announcing an acquisition that passes the check keeps the graph free of cycles: adding all
      the edges is as safe as adding each. */
  lemma {:induction false} AddEdgesInto(f: Edges, hs: set<nat>, c: nat)
    requires Acyclic(f) && c !in hs && forall h | h in hs :: !Path(f, c, h)
    ensures Acyclic(f + Into(hs, c))
    decreases hs
  {
    if hs == {} {
      assert f + Into(hs, c) == f;
    } else {
      var h :| h in hs;
      AddEdge(f, h, c);
      forall y | y in hs - {h} ensures !Path(f + {(h, c)}, c, y) {
        EdgeIntoKeepsReach(f, h, c, y);
      }
      AddEdgesInto(f + {(h, c)}, hs - {h}, c);
      assert f + {(h, c)} + Into(hs - {h}, c) == f + Into(hs, c);
    }
  }

  /** And the check refuses nothing else: a thread is let pass exactly if its edges make no cycle. */
  lemma PassesExactly(s: State, t: Thread, id: nat)
    requires Acyclic(s.follows)
    ensures MayLock(s, t, id) <==> Acyclic(s.follows + Into(s.Held(t), id))
  {
    hide Acyclic, Path;
    var f, hs := s.follows, s.Held(t);
    if MayLock(s, t, id) {
      AddEdgesInto(f, hs, id);
    }
    if Acyclic(f + Into(hs, id)) {
      forall h | h in hs ensures h != id && !Path(f, id, h) {
        FewerEdges(f + {(h, id)}, f + Into(hs, id));
        AddEdge(f, h, id);
      }
    }
  }

  lemma AnnouncedOk(s: State, t: Thread, id: nat)
    requires Ok(s) && id in s.lockNames && MayLock(s, t, id)
    ensures Ok(Announced(s, t, id))
  {
    AddEdgesInto(s.follows, s.Held(t), id);
  }

  lemma NotedOk(s: State, t: Thread, id: nat)
    requires Ok(s) && id in s.lockNames
    ensures Ok(Noted(s, t, id))
  {
  }

  lemma ForgottenOk(s: State, t: Thread, id: nat)
    requires Ok(s)
    ensures Ok(Forgotten(s, t, id))
  {
  }

  /** A fresh class comes from the free list and starts without edges. */
  lemma RegisteredOk(s: State, name: string)
    requires Ok(s) && Registered(s, name).Some?
    ensures var (s', id) := Registered(s, name).value;
            Ok(s') && id in s'.lockNames && s'.lockNames[id] == name
  {
    RegisteredNames(s, name);
    RegisteredIds(s, name);
    hide NamesAgree, IdsAgree, Acyclic;
  }

  lemma RegisteredNames(s: State, name: string)
    requires NamesAgree(s) && IdsAgree(s) && Registered(s, name).Some?
    ensures var (s', id) := Registered(s, name).value;
            && NamesAgree(s')
            && id in s'.lockNames && s'.lockNames[id] == name && s.lockNames.Keys <= s'.lockNames.Keys
  {
    if name !in s.lockIds {
      assert s.freeIds[0] in s.freeIds;
    }
  }

  lemma RegisteredIds(s: State, name: string)
    requires NamesAgree(s) && IdsAgree(s) && Registered(s, name).Some?
    ensures IdsAgree(Registered(s, name).value.0)
  {
    hide NamesAgree;
    var s', id := Registered(s, name).value.0, Registered(s, name).value.1;
    if name !in s.lockIds {
      assert s.freeIds == [id] + s'.freeIds;
      forall i: nat ensures i in s'.lockNames <==> i < MAX_LOCKS && i !in s'.freeIds {
        assert i in s.freeIds <==> i == id || i in s'.freeIds;
      }
    }
  }

  lemma UnregisteredOk(s: State, id: nat)
    requires Ok(s) && id in s.lockNames && forall t | t in s.held :: id !in s.held[t] || s.lockRefs[id] > 1
    ensures Ok(Unregistered(s, id))
  {
    UnregisteredIds(s, id);
    hide IdsAgree, Acyclic;
    FewerEdges(Unregistered(s, id).follows, s.follows);
  }

  lemma UnregisteredIds(s: State, id: nat)
    requires IdsAgree(s) && id in s.lockNames
    ensures IdsAgree(Unregistered(s, id))
  {
    var s' := Unregistered(s, id);
    assert id !in s.freeIds;
    forall i: nat ensures i in s'.lockNames <==> i < MAX_LOCKS && i !in s'.freeIds {
      assert s'.freeIds == s.freeIds || s'.freeIds == s.freeIds + [id];
    }
  }

  // ------------------------------------------------------------------
  // lockdep.cc

  /** The globals of lockdep.cc; each method is one section under lockdep_mutex. */
  class LockChecker {
    var lockIds: map<string, nat>
    var lockNames: map<nat, string>
    var lockRefs: map<nat, nat>
    var freeIds: seq<nat>
    var held: map<Thread, set<nat>>
    var follows: Edges

    ghost function Now(): State
      reads this
    {
      State(lockIds, lockNames, lockRefs, freeIds, held, follows)
    }

    /** lockdep_register_ceph_context. */
    constructor ()
      ensures Now() == Initial()
    {
      lockIds, lockNames, lockRefs, held, follows := map[], map[], map[], map[], {};
      freeIds := [];
      new;
      var i := 0;
      assert freeIds == UpTo(0);
      while i < MAX_LOCKS
        invariant 0 <= i <= MAX_LOCKS && freeIds == UpTo(i)
        invariant Now() == State(map[], map[], map[], freeIds, map[], {})
      {
        freeIds := freeIds + [i];
        i := i + 1;
      }
    }

    method Register(name: string) returns (r: Option<nat>)
      requires Ok(Now())
      modifies this
      ensures match Registered(old(Now()), name)
              case None => r == None && Now() == old(Now())
              case Some(p) => r == Some(p.1) && Now() == p.0
    {
      var id: nat;
      if name !in lockIds {
        if freeIds == [] {
          return None;
        }
        id, freeIds := freeIds[0], freeIds[1..];
        lockIds := lockIds[name := id];
        lockNames := lockNames[id := name];
      } else {
        id := lockIds[name];
      }
      lockRefs := lockRefs[id := 1 + if id in lockRefs then lockRefs[id] else 0];
      return Some(id);
    }

    /** "reset dependency ordering". */
    method ClearEdges(id: nat)
      requires InRange(follows)
      modifies this`follows
      ensures follows == set e | e in old(follows) && e.0 != id && e.1 != id
    {
      var i := 0;
      while i < MAX_LOCKS
        invariant 0 <= i <= MAX_LOCKS
        invariant follows == set e | e in old(follows) && !(e.0 == id && e.1 < i) && !(e.1 == id && e.0 < i)
      {
        follows := follows - {(id, i), (i, id)};
        i := i + 1;
      }
    }

    method Unregister(id: nat)
      requires Ok(Now()) && id in lockNames
      modifies this
      ensures Now() == Unregistered(old(Now()), id)
    {
      hide GraphOk, IdsAgree, InRange;
      lockRefs := lockRefs[id := lockRefs[id] - 1];
      if lockRefs[id] == 0 {
        OkInRange(old(Now()));
        ClearEdges(id);
        var name := lockNames[id];
        lockIds := lockIds - {name};
        lockNames := lockNames - {id};
        lockRefs := lockRefs - {id};
        freeIds := freeIds + [id];
      }
    }

    /** does_follow ends on a graph without cycles, and answers whether a path exists. */
    method DoesFollow(a: nat, b: nat) returns (r: bool)
      requires Acyclic(follows) && InRange(follows)
      ensures r <==> Path(follows, a, b)
      decreases |Reach(follows, a)|
    {
      if (a, b) in follows {
        EdgeIsPath(follows, a, b);
        return true;
      }
      var i := 0;
      while i < MAX_LOCKS
        invariant 0 <= i <= MAX_LOCKS
        invariant forall k | 0 <= k < i && (a, k) in follows :: !Path(follows, k, b)
      {
        if (a, i) in follows {
          ReachShrinks(follows, a, i);
          var found := DoesFollow(i, b);
          if found {
            EdgeIsPath(follows, a, i);
            PathTrans(follows, a, i, b);
            return true;
          }
        }
        i := i + 1;
      }
      NoPath(follows, a, b);
      return false;
    }

    /** lockdep_will_lock: aborts exactly when this acquisition could close a cycle. */
    method WillLock(t: Thread, id: nat) returns (ok: bool)
      requires Ok(Now()) && id in lockNames
      modifies this`follows
      ensures ok <==> MayLock(old(Now()), t, id)
      ensures ok ==> Now() == Announced(old(Now()), t, id)
    {
      hide Into;
      var mine := if t in held then held[t] else {};
      var todo := mine;
      ghost var f := follows;
      OkInRange(Now());
      IntoNone(f, mine - todo, id);
      while todo != {}
        invariant todo <= mine
        invariant forall x | x in mine - todo :: x != id && !Path(f, id, x)
        invariant follows == f + Into(mine - todo, id)
        invariant Acyclic(follows) && InRange(follows)
        invariant forall y | y != id :: Path(follows, id, y) <==> Path(f, id, y)
        decreases todo
      {
        var h :| h in todo;
        if h == id {
          return false;
        }
        ghost var g := follows;
        AddEdge(g, h, id);
        if (h, id) !in follows {
          var cycle := DoesFollow(id, h);
          if cycle {
            return false;
          }
          follows := follows + {(h, id)};
          forall y | y != id ensures Path(follows, id, y) <==> Path(f, id, y) {
            EdgeIntoKeepsReach(g, h, id, y);
          }
        } else {
          assert g + {(h, id)} == g;
        }
        IntoMore(f, mine - todo, h, id);
        assert mine - (todo - {h}) == mine - todo + {h};
        todo := todo - {h};
      }
      assert mine - todo == mine;
      return true;
    }

    method Locked(t: Thread, id: nat)
      modifies this`held
      ensures Now() == Noted(old(Now()), t, id)
    {
      held := held[t := (if t in held then held[t] else {}) + {id}];
    }

    method WillUnlock(t: Thread, id: nat)
      modifies this`held
      ensures Now() == Forgotten(old(Now()), t, id)
    {
      held := held[t := (if t in held then held[t] else {}) - {id}];
    }
  }
}
