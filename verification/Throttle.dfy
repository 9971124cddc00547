/** class Throttle of common/Throttle.cc: getters queue behind each other for slots. A step is what
    one thread does between taking and releasing the lock; Cond::Wait ends one step, and the
    return from it starts another. */
module Throttles {
  import opened Basics

  /** A thread in _wait: its place in the order of arrival, what it asks for, whether the amount is
      added to `count` (get) or not (wait), and whether its Cond was signalled since it slept. */
  datatype Waiter = Waiter(ticket: nat, c: nat, counts: bool, woken: bool)

  /** The fields, and the number of arrivals so far. */
  datatype State = State(count: nat, max: nat, cond: seq<Waiter>, next: nat)

  datatype Step =
    | Enter(c: nat, counts: bool, newMax: nat)
    | Resume(i: nat)
    | GetOrFail(c: nat)
    | Take(c: nat)
    | Put(c: nat)
    | ResetMax(newMax: nat)

  predicate ShouldWait(count: nat, max: nat, c: nat) {
    max != 0 && ((c <= max && count + c > max) || (c >= max && count > max))
  }

  function SignalFront(cond: seq<Waiter>): seq<Waiter> {
    if cond == [] then [] else [cond[0].(woken := true)] + cond[1..]
  }

  function WithMax(s: State, m: nat): State {
    if s.max == m then s else s.(cond := SignalFront(s.cond), max := m)
  }

  function Grant(s: State, c: nat, counts: bool): State {
    s.(count := s.count + (if counts then c else 0))
  }

  /** A waiter may resume at any time: Cond::Wait can also return unsignalled. put asserts that the
      count does not go negative. */
  predicate Enabled(s: State, step: Step) {
    match step
    case Resume(i) => i < |s.cond|
    case Put(c) => c <= s.count
    case _ => true
  }

  function Next(s: State, step: Step): State
    requires Enabled(s, step)
  {
    match step
    case Enter(c, counts, m) =>
      var s1 := if m != 0 then WithMax(s, m) else s;
      if ShouldWait(s1.count, s1.max, c) || s1.cond != [] then
        s1.(cond := s1.cond + [Waiter(s1.next, c, counts, false)], next := s1.next + 1)
      else
        Grant(s1, c, counts).(next := s1.next + 1)
    case Resume(i) =>
      var w := s.cond[i];
      if ShouldWait(s.count, s.max, w.c) || i != 0 then
        s.(cond := s.cond[i := w.(woken := false)])
      else
        Grant(s.(cond := SignalFront(s.cond[1..])), w.c, w.counts)
    case GetOrFail(c) =>
      if ShouldWait(s.count, s.max, c) || s.cond != [] then s
      else Grant(s, c, true).(next := s.next + 1)
    case Take(c) => s.(count := s.count + c)
    case Put(c) => if c == 0 then s else s.(cond := SignalFront(s.cond), count := s.count - c)
    case ResetMax(m) => WithMax(s, m)
  }

  // ------------------------------------------------------------------
  // What every step keeps

  /** What the throttle is for: a request that fits below the limit stays below it, and one larger
      than the limit passes only while the count is not over it. No limit means no waiting. */
  predicate Room(count: nat, max: nat, c: nat) {
    max == 0 || (if c <= max then count + c <= max else count <= max)
  }

  lemma WaitsExactlyWithoutRoom(count: nat, max: nat, c: nat)
    ensures ShouldWait(count, max, c) <==> !Room(count, max, c)
  {
  }

  /** Those who wait are the last who came, in the order they came. */
  predicate LastToCome(s: State) {
    |s.cond| <= s.next && forall i | 0 <= i < |s.cond| :: s.cond[i].ticket == s.next - |s.cond| + i
  }

  /** With the lock free, a front waiter without a pending signal still has to wait. */
  predicate NoLostWakeup(s: State) {
    s.cond != [] && !s.cond[0].woken ==> !Room(s.count, s.max, s.cond[0].c)
  }

  predicate Inv(s: State) {
    LastToCome(s) && NoLostWakeup(s)
  }

  /** Every step keeps the order and the wake-ups. */
  lemma Keeps(s: State, step: Step)
    requires Inv(s) && Enabled(s, step)
    ensures Inv(Next(s, step))
  {
  }

  // ------------------------------------------------------------------
  // What a step does, seen from outside

  /** The request a step serves: an arrival that is not queued, a waiter that leaves the queue, or a
      get_or_fail that is counted among the arrivals. */
  datatype Service = Service(ticket: nat, c: nat, counts: bool)

  function Served(s: State, step: Step, s': State): Option<Service> {
    match step
    case Enter(c, counts, _) => if |s'.cond| == |s.cond| then Some(Service(s.next, c, counts)) else None
    case Resume(i) =>
      if i < |s.cond| && |s'.cond| < |s.cond| then Some(Service(s.cond[i].ticket, s.cond[i].c, s.cond[i].counts)) else None
    case GetOrFail(c) => if s'.next > s.next then Some(Service(s.next, c, true)) else None
    case _ => None
  }

  /** What a step is to add to the count. */
  function Change(s: State, step: Step, s': State): int {
    match step
    case Take(c) => c
    case Put(c) => 0 - c
    case _ =>
      match Served(s, step, s')
      case Some(x) => if x.counts then x.c else 0
      case None => 0
  }

  /** The limit a step sets. */
  function MaxBy(step: Step, max: nat): nat {
    match step
    case Enter(_, _, m) => if m != 0 then m else max
    case ResetMax(m) => m
    case _ => max
  }

  /** Served exactly with room, and never before anybody who waits. */
  lemma ServedExactly(s: State, step: Step)
    requires Inv(s) && Enabled(s, step)
    ensures var max, served := MaxBy(step, s.max), Served(s, step, Next(s, step));
            match step
            case Enter(c, _, _) => served.Some? <==> s.cond == [] && Room(s.count, max, c)
            case Resume(i) => served.Some? <==> i == 0 && Room(s.count, max, s.cond[0].c)
            case GetOrFail(c) => served.Some? <==> s.cond == [] && Room(s.count, max, c)
            case _ => served == None
  {
    match step {
      case Enter(c, _, _) => WaitsExactlyWithoutRoom(s.count, MaxBy(step, s.max), c);
      case Resume(i) => WaitsExactlyWithoutRoom(s.count, s.max, s.cond[i].c);
      case GetOrFail(c) => WaitsExactlyWithoutRoom(s.count, s.max, c);
      case _ =>
    }
  }

  /** Steps that signal the front waiter: slots come back, the limit changes, or the one before leaves. */
  predicate Signals(s: State, step: Step, s': State) {
    || (step.Put? && step.c > 0)
    || MaxBy(step, s.max) != s.max
    || (step.Resume? && |s'.cond| < |s.cond|)
  }

  /** Where waiter j of the next state stands now; the length of the queue if it has just come. */
  function Origin(s: State, step: Step, s': State, j: nat): nat {
    if step.Resume? && |s'.cond| < |s.cond| then j + 1 else j
  }

  /** A waiter stays as it came, but for being woken. */
  lemma SameWaiter(s: State, step: Step, j: nat)
    requires Enabled(s, step) && j < |Next(s, step).cond|
    ensures var s', i := Next(s, step), Origin(s, step, Next(s, step), j);
            if i < |s.cond| then s'.cond[j] == s.cond[i].(woken := s'.cond[j].woken)
            else step.Enter? && s'.cond[j] == Waiter(s.next, step.c, step.counts, false)
  {
  }

  lemma WokenFrom(s: State, step: Step, j: nat)
    requires Enabled(s, step) && j < |Next(s, step).cond|
    ensures var s', i := Next(s, step), Origin(s, step, Next(s, step), j);
            s'.cond[j].woken <==>
              (j == 0 && s.cond != [] && Signals(s, step, s')) || (i < |s.cond| && s.cond[i].woken && step != Resume(i))
  {
  }

  /** A waiter is woken exactly by such a step, when it is in front, and until it sleeps again. */
  lemma WokenExactly(s: State, step: Step, j: nat)
    requires Inv(s) && Enabled(s, step) && j < |Next(s, step).cond|
    ensures var s' := Next(s, step);
            s'.cond[j].woken <==>
              || (j == 0 && s.cond != [] && Signals(s, step, s'))
              || exists i | 0 <= i < |s.cond| :: s.cond[i].ticket == s'.cond[j].ticket && s.cond[i].woken && step != Resume(i)
  {
    hide Next, Enabled, Signals;
    WokenFrom(s, step, j);
    SameWaiter(s, step, j);
  }

  // ------------------------------------------------------------------
  // Whole runs

  ghost predicate Run(states: seq<State>, steps: seq<Step>) {
    && |states| == |steps| + 1
    && (exists m: nat :: states[0] == State(0, m, [], 0))
    && forall i | 0 <= i < |steps| :: Enabled(states[i], steps[i]) && states[i + 1] == Next(states[i], steps[i])
  }

  lemma {:induction false} RunKeeps(states: seq<State>, steps: seq<Step>, k: nat)
    requires Run(states, steps) && k < |states|
    ensures Inv(states[k])
  {
    hide Inv, Next, Enabled;
    if k == 0 {
      var m: nat :| states[0] == State(0, m, [], 0);
      StartOk(m);
    } else {
      RunKeeps(states, steps, k - 1);
      Keeps(states[k - 1], steps[k - 1]);
    }
  }

  lemma StartOk(m: nat)
    ensures Inv(State(0, m, [], 0))
  {
  }

  /** The sum of what the first k steps are to add. */
  ghost function Account(states: seq<State>, steps: seq<Step>, k: nat): int
    requires k <= |steps| < |states|
  {
    if k == 0 then 0 else Account(states, steps, k - 1) + Change(states[k - 1], steps[k - 1], states[k])
  }

  /** In every run the count is what was granted and taken less what was put back. */
  lemma {:induction false} CountIsAccount(states: seq<State>, steps: seq<Step>, k: nat)
    requires Run(states, steps) && k <= |steps|
    ensures states[k].count == Account(states, steps, k)
  {
    hide Next, Enabled, Change;
    if k > 0 {
      CountIsAccount(states, steps, k - 1);
      CountChanges(states[k - 1], steps[k - 1]);
    }
  }

  lemma CountChanges(s: State, step: Step)
    requires Enabled(s, step)
    ensures Next(s, step).count == s.count + Change(s, step, Next(s, step))
  {
  }

  /** The tickets served by the first k steps, in order. */
  ghost function ServedOrder(states: seq<State>, steps: seq<Step>, k: nat): seq<nat>
    requires k <= |steps| < |states|
  {
    if k == 0 then []
    else
      match Served(states[k - 1], steps[k - 1], states[k])
      case Some(x) => ServedOrder(states, steps, k - 1) + [x.ticket]
      case None => ServedOrder(states, steps, k - 1)
  }

  /** In every run nobody overtakes: the i-th served is the i-th who came, and the others wait. */
  lemma {:induction false} NoOvertaking(states: seq<State>, steps: seq<Step>, k: nat)
    requires Run(states, steps) && k <= |steps|
    ensures |states[k].cond| <= states[k].next && ServedOrder(states, steps, k) == UpTo(states[k].next - |states[k].cond|)
  {
    hide Inv, Next, Enabled, UpTo, Served;
    RunKeeps(states, steps, k);
    WaitersCame(states[k]);
    if k == 0 {
      NobodyYet();
    } else {
      var s := states[k - 1];
      NoOvertaking(states, steps, k - 1);
      RunKeeps(states, steps, k - 1);
      OneServed(s, steps[k - 1]);
      UpToNext(s.next - |s.cond|);
    }
  }

  lemma NobodyYet()
    ensures UpTo(0) == []
  {
  }

  lemma WaitersCame(s: State)
    requires Inv(s)
    ensures |s.cond| <= s.next
  {
  }

  lemma OneServed(s: State, step: Step)
    requires Inv(s) && Enabled(s, step)
    ensures var s' := Next(s, step);
            match Served(s, step, s')
            case Some(x) => x.ticket == s.next - |s.cond| && s'.next - |s'.cond| == s.next - |s.cond| + 1
            case None => s'.next - |s'.cond| == s.next - |s.cond|
  {
  }

  /** Everybody who waits came with a get or wait that asked for what is noted of it. */
  lemma {:induction false} WaitersAskedFor(states: seq<State>, steps: seq<Step>, k: nat, j: nat) returns (i: nat)
    requires Run(states, steps) && k <= |steps| && j < |states[k].cond|
    ensures i < k && steps[i].Enter? && states[i].next == states[k].cond[j].ticket
    ensures steps[i].c == states[k].cond[j].c && steps[i].counts == states[k].cond[j].counts
  {
    hide Next, Enabled;
    assert k > 0;
    var s, step := states[k - 1], steps[k - 1];
    SameWaiter(s, step, j);
    var j' := Origin(s, step, states[k], j);
    if j' < |s.cond| {
      i := WaitersAskedFor(states, steps, k - 1, j');
    } else {
      i := k - 1;
    }
  }

  /** The maximum is the last one set. */
  function MaxAfter(max: nat, steps: seq<Step>): nat {
    if steps == [] then max else MaxBy(steps[|steps| - 1], MaxAfter(max, steps[..|steps| - 1]))
  }

  lemma {:induction false} MaxIsLastSet(states: seq<State>, steps: seq<Step>, k: nat)
    requires Run(states, steps) && k <= |steps|
    ensures states[k].max == MaxAfter(states[0].max, steps[..k])
  {
    if k > 0 {
      MaxIsLastSet(states, steps, k - 1);
      assert steps[..k][..k - 1] == steps[..k - 1];
    }
  }

  // ------------------------------------------------------------------
  // The class

  class Throttle {
    var count: nat
    var max: nat
    var cond: seq<Waiter>
    var next: nat

    ghost function Now(): State
      reads this
    {
      State(count, max, cond, next)
    }

    constructor (m: nat)
      ensures Now() == State(0, m, [], 0) && Inv(Now())
    {
      count, max, cond, next := 0, m, [], 0;
    }

    /** cond.front()->SignalOne(). */
    method Signal()
      modifies this`cond
      ensures cond == SignalFront(old(cond))
    {
      if cond != [] {
        cond := [cond[0].(woken := true)] + cond[1..];
      }
    }

    /** _reset_max. */
    method ResetMaximum(m: nat)
      modifies this`cond, this`max
      ensures Now() == WithMax(old(Now()), m)
    {
      if max == m {
        return;
      }
      Signal();
      max := m;
    }

    /** get(c, m) or wait(m) up to its first Wait or its end. */
    method Arrive(c: nat, counts: bool, m: nat) returns (waits: bool)
      requires Inv(Now())
      modifies this
      ensures Now() == Next(old(Now()), Enter(c, counts, m)) && Inv(Now())
      ensures waits <==> |cond| > |old(cond)|
      ensures waits <==> old(cond) != [] || !Room(old(count), max, c)
      ensures count == old(count) + (if !waits && counts then c else 0) && max == if m != 0 then m else old(max)
    {
      hide Inv;
      Keeps(Now(), Enter(c, counts, m));
      if m != 0 {
        ResetMaximum(m);
      }
      var ticket := next;
      next := next + 1;
      if ShouldWait(count, max, c) || cond != [] {
        cond := cond + [Waiter(ticket, c, counts, false)];
        return true;
      }
      if counts {
        count := count + c;
      }
      return false;
    }

    /** The rest of _wait after one return from cv->Wait; `waits` when it goes back to sleep. */
    method WakeUp(i: nat) returns (waits: bool)
      requires Inv(Now()) && i < |cond|
      modifies this
      ensures Now() == Next(old(Now()), Resume(i)) && Inv(Now())
      ensures waits <==> |cond| == |old(cond)|
      ensures waits <==> i != 0 || !Room(old(count), old(max), old(cond)[i].c)
      ensures count == old(count) + if !waits && old(cond)[i].counts then old(cond)[i].c else 0
    {
      hide Inv;
      Keeps(Now(), Resume(i));
      var w := cond[i];
      if ShouldWait(count, max, w.c) || i != 0 {
        cond := cond[i := w.(woken := false)];
        return true;
      }
      cond := cond[1..];
      Signal();
      if w.counts {
        count := count + w.c;
      }
      return false;
    }

    method TryGet(c: nat) returns (ok: bool)
      requires Inv(Now())
      modifies this
      ensures Now() == Next(old(Now()), GetOrFail(c)) && Inv(Now())
      ensures ok <==> Room(old(count), old(max), c) && old(cond) == []
      ensures count == old(count) + if ok then c else 0
    {
      hide Inv;
      Keeps(Now(), GetOrFail(c));
      if ShouldWait(count, max, c) || cond != [] {
        return false;
      }
      next := next + 1;
      count := count + c;
      return true;
    }

    method TakeAnyway(c: nat)
      requires Inv(Now())
      modifies this
      ensures Now() == Next(old(Now()), Take(c)) && Inv(Now()) && count == old(count) + c
    {
      hide Inv;
      Keeps(Now(), Take(c));
      count := count + c;
    }

    method PutBack(c: nat)
      requires Inv(Now()) && c <= count
      modifies this
      ensures Now() == Next(old(Now()), Put(c)) && Inv(Now())
      ensures count == old(count) - c && (c > 0 && cond != [] ==> cond[0].woken)
    {
      hide Inv;
      Keeps(Now(), Put(c));
      if c != 0 {
        Signal();
        count := count - c;
      }
    }
  }
}
