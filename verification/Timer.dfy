/** SafeTimer (common/Timer.cc): callbacks scheduled by time, looked up by callback, and a thread
    that runs those that are due. */
module Timers {
  import opened Basics

  type Callback = nat
  type Time = int

  /** A node of the `schedule` multimap; iterators into it are node numbers. */
  datatype Entry = Entry(node: nat, when: Time, cb: Callback)

  datatype Fate = Pending | Fired | Cancelled

  /** Where the thread is; NoThread is the null pointer before init() and behind shutdown(). */
  datatype Phase =
    | NoThread
    | Created
    | Asleep(deadline: Option<Time>, woken: bool)
    | InCallback(now: Time, cb: Callback)
    | Exited

  /** The fields, the timer thread, and what has become of every callback ever added. */
  datatype State = State(safeCallbacks: bool, schedule: seq<Entry>, events: map<Callback, nat>, stopping: bool,
                         nextNode: nat, phase: Phase, fate: map<Callback, Fate>)

  datatype Step =
    | Add(when: Time, cb: Callback)
    | Cancel(cb: Callback)
    | CancelAll
    | Init
    | Shutdown
    | Joined
    | Begin(now: Time)
    | Wake(now: Time)
    | CallbackReturns

  /** multimap::insert: behind every entry that is not later. */
  function Insert(s: seq<Entry>, e: Entry): seq<Entry> {
    if s == [] || e.when < s[0].when then [e] + s else [s[0]] + Insert(s[1..], e)
  }

  /** multimap::erase(iterator). */
  function Erase(s: seq<Entry>, node: nat): seq<Entry> {
    if s == [] then [] else if s[0].node == node then s[1..] else [s[0]] + Erase(s[1..], node)
  }

  /** cond.Signal(). */
  function Signalled(p: Phase): Phase {
    if p.Asleep? then p.(woken := true) else p
  }

  /** The rest of timer_thread's loop body once `now` is read, up to where it lets go. */
  function Loop(s: State, now: Time): State {
    if s.schedule != [] && s.schedule[0].when <= now then
      var e := s.schedule[0];
      s.(schedule := s.schedule[1..], events := s.events - {e.cb}, phase := InCallback(now, e.cb),
         fate := s.fate[e.cb := Fired])
    else if !s.safeCallbacks && s.stopping then s.(phase := Exited)
    else s.(phase := Asleep(if s.schedule == [] then None else Some(s.schedule[0].when), false))
  }

  function Top(s: State, now: Time): State {
    if s.stopping then s.(phase := Exited) else Loop(s, now)
  }

  /** Every callback of `events`, removed from both. */
  function Emptied(s: State): State {
    s.(schedule := [], events := map[],
       fate := map cb | cb in s.fate :: if s.fate[cb] == Pending then Cancelled else s.fate[cb])
  }

  /** A callback is added once, and the thread is made once. With safe callbacks the lock is held while one runs, so no other
      thread can shut the timer down then, and the callback itself cannot. */
  predicate Enabled(s: State, step: Step) {
    match step
    case Add(_, cb) => cb !in s.fate
    case Cancel(_) => true
    case CancelAll => true
    case Init => s.phase == NoThread
    case Shutdown => !(s.safeCallbacks && s.phase.InCallback?)
    case Joined => s.stopping && s.phase == Exited
    case Begin(_) => s.phase == Created
    case Wake(_) => s.phase.Asleep?
    case CallbackReturns => s.phase.InCallback?
  }

  function Next(s: State, step: Step): State
    requires Enabled(s, step)
  {
    match step
    case Add(when, cb) =>
      var first := s.schedule == [] || when < s.schedule[0].when;
      s.(schedule := Insert(s.schedule, Entry(s.nextNode, when, cb)), events := s.events[cb := s.nextNode],
         nextNode := s.nextNode + 1, fate := s.fate[cb := Pending],
         phase := if first then Signalled(s.phase) else s.phase)
    case Cancel(cb) =>
      if cb !in s.events then s
      else s.(schedule := Erase(s.schedule, s.events[cb]), events := s.events - {cb}, fate := s.fate[cb := Cancelled])
    case CancelAll => Emptied(s)
    case Init => s.(phase := Created)
    case Shutdown => if s.phase == NoThread then s else Emptied(s).(stopping := true, phase := Signalled(s.phase))
    case Joined => s.(phase := NoThread)
    case Begin(now) => Top(s, now)
    case Wake(now) => Top(s, now)
    case CallbackReturns => Loop(s, s.phase.now)
  }

  // ------------------------------------------------------------------
  // What every step keeps

  /** Earlier ones first, and of those due at the same time the one added first. */
  predicate Before(a: Entry, b: Entry) {
    a.when < b.when || (a.when == b.when && a.node < b.node)
  }

  ghost predicate Ordered(s: seq<Entry>) {
    forall i, j | 0 <= i < j < |s| :: Before(s[i], s[j])
  }

  /** Both indexes hold the same callbacks, and each leads to the other. */
  ghost predicate Agree(schedule: seq<Entry>, events: map<Callback, nat>) {
    Linked(schedule, events) && Covered(schedule, events) && NodesDiffer(schedule)
  }

  ghost predicate Linked(schedule: seq<Entry>, events: map<Callback, nat>) {
    forall i | 0 <= i < |schedule| :: schedule[i].cb in events && events[schedule[i].cb] == schedule[i].node
  }

  ghost predicate Covered(schedule: seq<Entry>, events: map<Callback, nat>) {
    forall cb | cb in events :: exists i | 0 <= i < |schedule| :: schedule[i].cb == cb
  }

  ghost predicate NodesDiffer(schedule: seq<Entry>) {
    forall i, j | 0 <= i < j < |schedule| :: schedule[i].node != schedule[j].node
  }

  ghost predicate NodesBelow(schedule: seq<Entry>, n: nat) {
    forall i | 0 <= i < |schedule| :: schedule[i].node < n
  }

  /** Exactly the pending callbacks are in the indexes. */
  ghost predicate FatesMatch(s: State) {
    && (forall cb | cb in s.events :: cb in s.fate)
    && (forall cb | cb in s.fate :: s.fate[cb] == Pending <==> cb in s.events)
  }

  /** A thread that sleeps unsignalled has not been told to stop, and will wake in time. */
  predicate WakesInTime(s: State) {
    s.phase.Asleep? && !s.phase.woken ==>
      !s.stopping && (s.schedule != [] ==> s.phase.deadline.Some? && s.phase.deadline.value <= s.schedule[0].when)
  }

  ghost predicate Inv(s: State) {
    && Ordered(s.schedule)
    && Agree(s.schedule, s.events)
    && NodesBelow(s.schedule, s.nextNode)
    && FatesMatch(s)
    && WakesInTime(s)
    && (s.safeCallbacks && s.phase.InCallback? ==> !s.stopping)
  }

  lemma {:induction false} InsertAt(s: seq<Entry>, e: Entry) returns (k: nat)
    ensures k <= |s| && Insert(s, e) == s[..k] + [e] + s[k..]
    ensures forall i | 0 <= i < k :: s[i].when <= e.when
    ensures k < |s| ==> e.when < s[k].when
  {
    if s == [] || e.when < s[0].when {
      k := 0;
    } else {
      var k1 := InsertAt(s[1..], e);
      k := k1 + 1;
      assert s[..k] == [s[0]] + s[1..][..k1] && s[k..] == s[1..][k1..];
    }
  }

  lemma {:induction false} EraseAt(s: seq<Entry>, k: nat)
    requires k < |s| && forall i | 0 <= i < k :: s[i].node != s[k].node
    ensures Erase(s, s[k].node) == s[..k] + s[k + 1..]
  {
    if k > 0 {
      var t := s[1..];
      assert t[k - 1] == s[k] && forall i | 0 <= i < k - 1 :: t[i] == s[i + 1];
      EraseAt(t, k - 1);
      assert s[..k] + s[k + 1..] == [s[0]] + (t[..k - 1] + t[k..]);
    }
  }

  lemma KeepsAdd(s: State, when: Time, cb: Callback)
    requires Inv(s) && Enabled(s, Add(when, cb))
    ensures Inv(Next(s, Add(when, cb)))
  {
    hide Ordered, Agree, NodesBelow, Insert;
    var e := Entry(s.nextNode, when, cb);
    var k := InsertAt(s.schedule, e);
    InsertOrdered(s.schedule, e, k, s.nextNode);
    InsertAgrees(s.schedule, s.events, e, k, s.nextNode);
    assert !(s.schedule == [] || when < s.schedule[0].when) ==> (s.schedule[..k] + [e] + s.schedule[k..])[0] == s.schedule[0];
  }

  lemma InsertOrdered(s: seq<Entry>, e: Entry, k: nat, n: nat)
    requires Ordered(s) && NodesBelow(s, n) && e.node == n && k <= |s|
    requires forall i | 0 <= i < k :: s[i].when <= e.when
    requires k < |s| ==> e.when < s[k].when
    ensures Ordered(s[..k] + [e] + s[k..]) && NodesBelow(s[..k] + [e] + s[k..], n + 1)
  {
    forall j | k < j < |s| ensures e.when < s[j].when {
      assert Before(s[k], s[j]);
    }
  }

  lemma InsertAgrees(s: seq<Entry>, events: map<Callback, nat>, e: Entry, k: nat, n: nat)
    requires Agree(s, events) && NodesBelow(s, n) && e.node == n && e.cb !in events && k <= |s|
    ensures Agree(s[..k] + [e] + s[k..], events[e.cb := n])
  {
    hide Covered;
    InsertCovers(s, events, e, k, n);
  }

  lemma InsertCovers(s: seq<Entry>, events: map<Callback, nat>, e: Entry, k: nat, n: nat)
    requires Covered(s, events) && k <= |s|
    ensures Covered(s[..k] + [e] + s[k..], events[e.cb := n])
  {
    var t, events' := s[..k] + [e] + s[k..], events[e.cb := n];
    forall cb | cb in events' ensures exists i | 0 <= i < |t| :: t[i].cb == cb {
      if cb == e.cb {
        assert t[k].cb == cb;
      } else {
        var i :| 0 <= i < |s| && s[i].cb == cb;
        assert t[if i < k then i else i + 1].cb == cb;
      }
    }
  }

  /** Taking one entry out of both indexes. */
  lemma RemoveKeeps(s: seq<Entry>, events: map<Callback, nat>, k: nat, n: nat)
    requires Ordered(s) && Agree(s, events) && NodesBelow(s, n) && k < |s|
    ensures Ordered(s[..k] + s[k + 1..]) && NodesBelow(s[..k] + s[k + 1..], n)
    ensures Agree(s[..k] + s[k + 1..], events - {s[k].cb})
  {
    hide Agree;
    RemoveAgrees(s, events, k);
  }

  lemma RemoveAgrees(s: seq<Entry>, events: map<Callback, nat>, k: nat)
    requires Agree(s, events) && k < |s|
    ensures Agree(s[..k] + s[k + 1..], events - {s[k].cb})
  {
    hide Covered;
    RemoveCovers(s, events, k);
    forall j | 0 <= j < |s| && j != k ensures s[j].cb != s[k].cb {
      assert s[j].node != s[k].node;
    }
  }

  lemma RemoveCovers(s: seq<Entry>, events: map<Callback, nat>, k: nat)
    requires Covered(s, events) && k < |s|
    ensures Covered(s[..k] + s[k + 1..], events - {s[k].cb})
  {
    var t, events' := s[..k] + s[k + 1..], events - {s[k].cb};
    forall cb | cb in events' ensures exists i | 0 <= i < |t| :: t[i].cb == cb {
      var i :| 0 <= i < |s| && s[i].cb == cb;
      assert t[if i < k then i else i - 1].cb == cb;
    }
  }

  lemma FindNode(s: seq<Entry>, events: map<Callback, nat>, cb: Callback) returns (k: nat)
    requires Agree(s, events) && cb in events
    ensures k < |s| && s[k].cb == cb && Erase(s, events[cb]) == s[..k] + s[k + 1..]
  {
    var i :| 0 <= i < |s| && s[i].cb == cb;
    k := i;
    EraseAt(s, k);
  }

  lemma KeepsCancel(s: State, cb: Callback)
    requires Inv(s)
    ensures Inv(Next(s, Cancel(cb)))
  {
    hide Ordered, Agree, NodesBelow, Erase;
    if cb in s.events {
      var k := FindNode(s.schedule, s.events, cb);
      RemoveKeeps(s.schedule, s.events, k, s.nextNode);
      HeadNotEarlier(s.schedule, k);
    }
  }

  lemma HeadNotEarlier(s: seq<Entry>, k: nat)
    requires Ordered(s) && k < |s|
    ensures var t := s[..k] + s[k + 1..]; t != [] ==> s[0].when <= t[0].when
  {
    if |s| > 1 {
      assert Before(s[0], s[1]);
    }
  }

  lemma KeepsEmptied(s: State)
    requires Inv(s)
    ensures Inv(Emptied(s))
  {
  }

  lemma KeepsLoop(s: State, now: Time)
    requires Inv(s) && (s.safeCallbacks ==> !s.stopping)
    ensures Inv(Loop(s, now))
  {
    hide Ordered, Agree, NodesBelow;
    if s.schedule != [] && s.schedule[0].when <= now {
      RemoveKeeps(s.schedule, s.events, 0, s.nextNode);
      assert s.schedule[..0] + s.schedule[1..] == s.schedule[1..];
      HeadIsPending(s);
    }
  }

  lemma HeadIsPending(s: State)
    requires Agree(s.schedule, s.events) && FatesMatch(s) && s.schedule != []
    ensures s.schedule[0].cb in s.events && s.schedule[0].cb in s.fate
  {
  }

  lemma Keeps(s: State, step: Step)
    requires Inv(s) && Enabled(s, step)
    ensures Inv(Next(s, step))
  {
    hide Ordered, Agree, NodesBelow, FatesMatch;
    match step {
      case Add(when, cb) => KeepsAdd(s, when, cb);
      case Cancel(cb) => KeepsCancel(s, cb);
      case CancelAll => KeepsEmptied(s);
      case Init => ShutdownFates(s, Next(s, step));
      case Shutdown => KeepsEmptied(s); ShutdownFates(if s.phase == NoThread then s else Emptied(s), Next(s, step));
      case Joined => ShutdownFates(s, Next(s, step));
      case Begin(now) => if !s.stopping { KeepsLoop(s, now); } else { ShutdownFates(s, Next(s, step)); }
      case Wake(now) => if !s.stopping { KeepsLoop(s, now); } else { ShutdownFates(s, Next(s, step)); }
      case CallbackReturns => KeepsLoop(s, s.phase.now);
    }
  }

  lemma ShutdownFates(s: State, s': State)
    requires FatesMatch(s) && s'.events == s.events && s'.fate == s.fate
    ensures FatesMatch(s')
  {
  }

  // ------------------------------------------------------------------
  // Whole runs

  function Fresh(safeCallbacks: bool): State {
    State(safeCallbacks, [], map[], false, 0, NoThread, map[])
  }

  ghost predicate Run(states: seq<State>, steps: seq<Step>) {
    && |states| == |steps| + 1
    && (exists safe :: states[0] == Fresh(safe))
    && forall i | 0 <= i < |steps| :: Enabled(states[i], steps[i]) && states[i + 1] == Next(states[i], steps[i])
  }

  lemma {:induction false} RunKeeps(states: seq<State>, steps: seq<Step>, k: nat)
    requires Run(states, steps) && k < |states|
    ensures Inv(states[k])
  {
    if k > 0 {
      RunKeeps(states, steps, k - 1);
      Keeps(states[k - 1], steps[k - 1]);
    }
  }

  /** One step settles the fate of a pending callback at most once: it fires only when it is due and
      first among the pending ones, and it is cancelled only by a cancel. */
  lemma FateOfStep(s: State, step: Step, cb: Callback)
    requires Inv(s) && Enabled(s, step) && cb in s.fate
    ensures cb in Next(s, step).fate
    ensures s.fate[cb] != Pending ==> Next(s, step).fate[cb] == s.fate[cb]
    ensures Next(s, step).fate[cb] == Fired && s.fate[cb] == Pending ==>
              && s.schedule != [] && s.schedule[0].cb == cb
              && Next(s, step).phase.InCallback? && Next(s, step).phase.cb == cb
              && s.schedule[0].when <= Next(s, step).phase.now
              && forall i | 0 < i < |s.schedule| :: Before(s.schedule[0], s.schedule[i])
    ensures Next(s, step).fate[cb] == Cancelled && s.fate[cb] == Pending ==>
              step == Cancel(cb) || step == CancelAll || step == Shutdown
  {
    hide NodesBelow, WakesInTime, Insert, Erase;
    if s.schedule != [] {
      HeadIsPending(s);
    }
  }

  /** The thread goes to sleep only when nothing is due at the time it read. */
  lemma NothingDueLeft(s: State, now: Time, i: nat)
    requires Inv(s) && Loop(s, now).phase.Asleep? && i < |s.schedule|
    ensures s.schedule[i].when > now
  {
    hide Agree, NodesBelow, FatesMatch;
    assert i > 0 ==> Before(s.schedule[0], s.schedule[i]);
  }

  /** Over a run, a callback that fired or was cancelled stays so: what was cancelled never fires,
      and nothing fires twice. */
  lemma {:induction false} SettledForGood(states: seq<State>, steps: seq<Step>, i: nat, j: nat, cb: Callback)
    requires Run(states, steps) && i <= j < |states| && cb in states[i].fate && states[i].fate[cb] != Pending
    ensures cb in states[j].fate && states[j].fate[cb] == states[i].fate[cb]
    decreases j - i
  {
    hide Inv, Next, Enabled;
    if i < j {
      RunKeeps(states, steps, i);
      FateOfStep(states[i], steps[i], cb);
      SettledForGood(states, steps, i + 1, j, cb);
    }
  }

  /** cancel_event reports success exactly on a pending callback, which then never fires. */
  lemma TrueCancelNeverFires(states: seq<State>, steps: seq<Step>, i: nat, j: nat, cb: Callback)
    requires Run(states, steps) && i < j < |states| && steps[i] == Cancel(cb) && cb in states[i].events
    ensures cb in states[j].fate && states[j].fate[cb] == Cancelled
  {
    RunKeeps(states, steps, i);
    assert states[i + 1] == Next(states[i], Cancel(cb));
    SettledForGood(states, steps, i + 1, j, cb);
  }

  // ------------------------------------------------------------------
  // What the steps say

  /** The callback is run by the timer thread with a step. */
  predicate Calls(step: Step, s': State, cb: Callback) {
    (step.Begin? || step.Wake? || step.CallbackReturns?) && s'.phase.InCallback? && s'.phase.cb == cb
  }

  /** The callback is cancelled with a step; shutdown does nothing without a thread. */
  predicate Cancels(s: State, step: Step, cb: Callback) {
    step == Cancel(cb) || step == CancelAll || (step == Shutdown && s.phase != NoThread)
  }

  /** An entry stands in the schedule exactly from the step that adds it, with the time and the callback
      asked for, to the one that runs or cancels its callback. */
  lemma ScheduledExactly(s: State, step: Step, e: Entry)
    requires Inv(s) && Enabled(s, step)
    ensures var s' := Next(s, step);
            e in s'.schedule <==>
              || (e in s.schedule && !Cancels(s, step, e.cb) && !Calls(step, s', e.cb))
              || (step == Add(e.when, e.cb) && e.node == s.nextNode)
  {
    hide Ordered, NodesBelow, FatesMatch, WakesInTime, Insert, Erase, Agree;
    match step {
      case Add(when, cb) =>
        var x := Entry(s.nextNode, when, cb);
        var k := InsertAt(s.schedule, x);
        Inserted(s.schedule, x, k, e);
      case Cancel(cb) =>
        if cb in s.events {
          var k := FindNode(s.schedule, s.events, cb);
          Removed(s.schedule, s.events, k, e);
        } else {
          NotScheduled(s.schedule, s.events, cb, e);
        }
      case Begin(now) => LoopSchedule(s, now, e);
      case Wake(now) => LoopSchedule(s, now, e);
      case CallbackReturns => LoopSchedule(s, s.phase.now, e);
      case _ =>
    }
  }

  lemma Inserted(s: seq<Entry>, x: Entry, k: nat, e: Entry)
    requires k <= |s|
    ensures e in s[..k] + [x] + s[k..] <==> e in s || e == x
  {
    assert s == s[..k] + s[k..];
  }

  lemma Removed(s: seq<Entry>, events: map<Callback, nat>, k: nat, e: Entry)
    requires Agree(s, events) && k < |s|
    ensures e in s[..k] + s[k + 1..] <==> e in s && e.cb != s[k].cb
  {
    hide Covered;
    assert s == s[..k] + [s[k]] + s[k + 1..];
    forall j | 0 <= j < |s| && j != k ensures s[j].cb != s[k].cb {
      assert s[j].node != s[k].node;
    }
    var t := s[..k] + s[k + 1..];
    forall j | 0 <= j < |t| ensures t[j] == s[if j < k then j else j + 1] {
    }
  }

  lemma NotScheduled(s: seq<Entry>, events: map<Callback, nat>, cb: Callback, e: Entry)
    requires Agree(s, events) && cb !in events
    ensures e in s ==> e.cb != cb
  {
  }

  lemma LoopSchedule(s: State, now: Time, e: Entry)
    requires Agree(s.schedule, s.events)
    ensures var s' := Loop(s, now);
            && (e in s'.schedule <==> e in s.schedule && !(s'.phase.InCallback? && s'.phase.cb == e.cb))
            && (s'.phase.InCallback? ==> exists x :: x in s.schedule && x.cb == s'.phase.cb)
  {
    hide Agree;
    if s.schedule != [] && s.schedule[0].when <= now {
      Removed(s.schedule, s.events, 0, e);
      assert s.schedule[..0] + s.schedule[1..] == s.schedule[1..];
      assert s.schedule[0] in s.schedule;
    }
  }

  /** How many callbacks were added. */
  function Adds(steps: seq<Step>): nat {
    if steps == [] then 0 else Adds(steps[..|steps| - 1]) + if steps[|steps| - 1].Add? then 1 else 0
  }

  /** The last time the thread read the clock. */
  function LastRead(steps: seq<Step>): Option<Time> {
    if steps == [] then None
    else
      match steps[|steps| - 1]
      case Begin(now) => Some(now)
      case Wake(now) => Some(now)
      case _ => LastRead(steps[..|steps| - 1])
  }

  lemma {:induction false} NodesCount(states: seq<State>, steps: seq<Step>, k: nat)
    requires Run(states, steps) && k <= |steps|
    ensures states[k].nextNode == Adds(steps[..k])
  {
    hide Enabled, Insert, Erase;
    if k > 0 {
      NodesCount(states, steps, k - 1);
      assert steps[..k][..k - 1] == steps[..k - 1];
    }
  }

  /** In every run a callback runs with the time read last. */
  lemma {:induction false} RunsAtTimeRead(states: seq<State>, steps: seq<Step>, k: nat)
    requires Run(states, steps) && k <= |steps| && states[k].phase.InCallback?
    ensures LastRead(steps[..k]) == Some(states[k].phase.now)
  {
    hide Next, Enabled;
    assert k > 0;
    assert steps[..k][..k - 1] == steps[..k - 1];
    TimeKept(states[k - 1], steps[k - 1]);
    if !steps[k - 1].Begin? && !steps[k - 1].Wake? {
      RunsAtTimeRead(states, steps, k - 1);
    }
  }

  lemma TimeKept(s: State, step: Step)
    requires Enabled(s, step) && Next(s, step).phase.InCallback?
    ensures if step.Begin? || step.Wake? then Next(s, step).phase.now == step.now
            else s.phase.InCallback? && s.phase.now == Next(s, step).phase.now
  {
  }

  /** Every entry was added, with that time and that callback, as the step its node says. */
  lemma {:induction false} EntriesWereAdded(states: seq<State>, steps: seq<Step>, k: nat, e: Entry) returns (i: nat)
    requires Run(states, steps) && k <= |steps| && e in states[k].schedule
    ensures i < k && steps[i] == Add(e.when, e.cb) && e.node == Adds(steps[..i])
  {
    hide Inv, Next, Enabled, Cancels, Calls;
    NothingScheduled(states, steps, e);
    RunKeeps(states, steps, k - 1);
    ScheduledExactly(states[k - 1], steps[k - 1], e);
    if e in states[k - 1].schedule {
      i := EntriesWereAdded(states, steps, k - 1, e);
    } else {
      i := k - 1;
      NodesCount(states, steps, k - 1);
    }
  }

  lemma NothingScheduled(states: seq<State>, steps: seq<Step>, e: Entry)
    requires Run(states, steps)
    ensures e !in states[0].schedule
  {
  }

  /** The callback was run by one of steps i to k - 1, not before its time. */
  ghost predicate RanInTime(states: seq<State>, steps: seq<Step>, i: nat, k: nat, when: Time, cb: Callback)
    requires k <= |steps| < |states|
  {
    exists j | i <= j < k :: RunsInTime(states, steps, j, when, cb)
  }

  ghost predicate RunsInTime(states: seq<State>, steps: seq<Step>, j: nat, when: Time, cb: Callback)
    requires j < |steps| < |states|
  {
    Calls(steps[j], states[j + 1], cb) && LastRead(steps[..j + 1]).Some? && when <= LastRead(steps[..j + 1]).value
  }

  ghost predicate WasCancelled(states: seq<State>, steps: seq<Step>, i: nat, k: nat, cb: Callback)
    requires k <= |steps| < |states|
  {
    exists j | i <= j < k :: Cancels(states[j], steps[j], cb)
  }

  /** In every run, a callback that was added is still scheduled for the time asked for, or was cancelled,
      or was run, and not before that time. */
  lemma {:induction false} AddedIsKept(states: seq<State>, steps: seq<Step>, i: nat, k: nat)
    requires Run(states, steps) && i < k <= |steps| && steps[i].Add?
    ensures || Entry(Adds(steps[..i]), steps[i].when, steps[i].cb) in states[k].schedule
            || WasCancelled(states, steps, i + 1, k, steps[i].cb)
            || RanInTime(states, steps, i + 1, k, steps[i].when, steps[i].cb)
    decreases k
  {
    hide Inv, Next, Enabled, Cancels, Calls;
    var e := Entry(Adds(steps[..i]), steps[i].when, steps[i].cb);
    RunKeeps(states, steps, k - 1);
    ScheduledExactly(states[k - 1], steps[k - 1], e);
    if k == i + 1 {
      NodesCount(states, steps, i);
    } else {
      AddedIsKept(states, steps, i, k - 1);
      if e in states[k - 1].schedule && e !in states[k].schedule && !Cancels(states[k - 1], steps[k - 1], e.cb) {
        RunsWhenDue(states, steps, k - 1, e);
      }
    }
  }

  lemma RunsWhenDue(states: seq<State>, steps: seq<Step>, j: nat, e: Entry)
    requires Run(states, steps) && j < |steps| && e in states[j].schedule && Calls(steps[j], states[j + 1], e.cb)
    ensures RunsInTime(states, steps, j, e.when, e.cb)
  {
    RunKeeps(states, steps, j);
    CallIsFirst(states[j], steps[j], e);
    hide Inv, Next, Enabled;
    RunsAtTimeRead(states, steps, j + 1);
  }

  /** What runs is what comes first among all that is scheduled, and is due. */
  lemma CallIsFirst(s: State, step: Step, e: Entry)
    requires Inv(s) && Enabled(s, step) && e in s.schedule && Calls(step, Next(s, step), e.cb)
    ensures s.schedule != [] && s.schedule[0] == e && e.when <= Next(s, step).phase.now
    ensures forall x | x in s.schedule && x != e :: Before(e, x)
  {
    hide FatesMatch, WakesInTime, NodesBelow;
    var i :| 0 <= i < |s.schedule| && s.schedule[i] == e;
    assert forall j | 0 < j < |s.schedule| :: s.schedule[j].node != s.schedule[0].node;
  }

  /** Of two callbacks that wait, the one with the earlier time runs first, and with the same time the one
      that was added first. */
  lemma EarliestFirst(states: seq<State>, steps: seq<Step>, i: nat, i': nat, j: nat)
    requires Run(states, steps) && i < j < |steps| && i' < j && i != i' && steps[i].Add? && steps[i'].Add?
    requires Entry(Adds(steps[..i]), steps[i].when, steps[i].cb) in states[j].schedule
    requires Entry(Adds(steps[..i']), steps[i'].when, steps[i'].cb) in states[j].schedule
    requires Calls(steps[j], states[j + 1], steps[i].cb)
    ensures steps[i].when < steps[i'].when || (steps[i].when == steps[i'].when && i < i')
  {
    hide Inv, Next, Enabled;
    RunKeeps(states, steps, j);
    AddsGrow(steps, i, i');
    AddsGrow(steps, i', i);
    CallIsFirst(states[j], steps[j], Entry(Adds(steps[..i]), steps[i].when, steps[i].cb));
  }

  lemma {:induction false} AddsGrow(steps: seq<Step>, i: nat, i': nat)
    requires i < |steps| && i' <= |steps| && steps[i].Add?
    ensures i < i' ==> Adds(steps[..i]) < Adds(steps[..i'])
    decreases i'
  {
    if i < i' {
      assert steps[..i'][..i' - 1] == steps[..i' - 1];
      AddsGrow(steps, i, i' - 1);
    }
  }

  /** A thread that sleeps unsignalled wakes no later than any callback is due that was added and neither
      run nor cancelled. */
  lemma WakesForAll(states: seq<State>, steps: seq<Step>, i: nat, k: nat)
    requires Run(states, steps) && i < k <= |steps| && steps[i].Add?
    requires states[k].phase.Asleep? && !states[k].phase.woken
    ensures || (states[k].phase.deadline.Some? && states[k].phase.deadline.value <= steps[i].when)
            || WasCancelled(states, steps, i + 1, k, steps[i].cb)
            || RanInTime(states, steps, i + 1, k, steps[i].when, steps[i].cb)
  {
    hide Next, Enabled, Agree, NodesBelow, FatesMatch;
    AddedIsKept(states, steps, i, k);
    RunKeeps(states, steps, k);
    var e := Entry(Adds(steps[..i]), steps[i].when, steps[i].cb);
    if e in states[k].schedule {
      var j :| 0 <= j < |states[k].schedule| && states[k].schedule[j] == e;
      assert j > 0 ==> Before(states[k].schedule[0], states[k].schedule[j]);
    }
  }

  /** Only what is pending runs, and then it counts as fired. */
  lemma CallFires(s: State, step: Step, cb: Callback)
    requires Inv(s) && Enabled(s, step) && Calls(step, Next(s, step), cb)
    ensures cb in s.fate && s.fate[cb] == Pending
    ensures cb in Next(s, step).fate && Next(s, step).fate[cb] == Fired
  {
    hide Ordered, NodesBelow, WakesInTime;
    if s.schedule != [] {
      HeadIsPending(s);
    }
  }

  /** In every run a callback runs at most once, and never after it was cancelled. */
  lemma RunsOnce(states: seq<State>, steps: seq<Step>, i: nat, j: nat, cb: Callback)
    requires Run(states, steps) && i < j < |steps|
    requires Calls(steps[i], states[i + 1], cb) || (steps[i] == Cancel(cb) && cb in states[i].events)
    ensures !Calls(steps[j], states[j + 1], cb)
  {
    RunKeeps(states, steps, i);
    RunKeeps(states, steps, j);
    hide Inv, Next, Enabled, Calls;
    if Calls(steps[i], states[i + 1], cb) {
      CallFires(states[i], steps[i], cb);
      SettledForGood(states, steps, i + 1, j, cb);
    } else {
      TrueCancelNeverFires(states, steps, i, j, cb);
    }
    if Calls(steps[j], states[j + 1], cb) {
      CallFires(states[j], steps[j], cb);
    }
  }

  /** The time a step of the thread goes by. */
  function TimeOf(s: State, step: Step): Time
    requires Enabled(s, step) && (step.Begin? || step.Wake? || step.CallbackReturns?)
  {
    if step.CallbackReturns? then s.phase.now else step.now
  }

  /** What the thread does next: it runs a callback exactly if one is due, unless it has been told to stop
      when it comes to the outer loop; it exits exactly if it has been told to stop and runs none; and
      else it sleeps until the first is due. */
  lemma ThreadGoesOn(s: State, step: Step)
    requires Inv(s) && Enabled(s, step) && (step.Begin? || step.Wake? || step.CallbackReturns?)
    ensures var p, now := Next(s, step).phase, TimeOf(s, step);
            && (p.InCallback? <==> (exists e :: e in s.schedule && e.when <= now) && (step.CallbackReturns? || !s.stopping))
            && (p == Exited <==> !p.InCallback? && s.stopping)
            && (!p.InCallback? && p != Exited ==> p.Asleep? && !p.woken && (p.deadline == None <==> s.schedule == []))
            && (p.Asleep? && p.deadline.Some? ==>
                  && (exists e :: e in s.schedule && e.when == p.deadline.value)
                  && forall e | e in s.schedule :: p.deadline.value <= e.when)
  {
    hide Agree, NodesBelow, FatesMatch;
    FirstIsEarliest(s.schedule);
  }

  lemma FirstIsEarliest(s: seq<Entry>)
    requires Ordered(s)
    ensures s != [] ==> s[0] in s && forall e | e in s :: s[0].when <= e.when
  {
    forall e | e in s ensures s[0].when <= e.when {
      var i :| 0 <= i < |s| && s[i] == e;
      assert i > 0 ==> Before(s[0], s[i]);
    }
  }

  /** A sleeping thread is signalled exactly by an event that comes before all others and by shutdown, until
      it wakes. */
  lemma WokenExactly(s: State, step: Step)
    requires Inv(s) && Enabled(s, step) && Next(s, step).phase.Asleep?
    ensures Next(s, step).phase.woken <==>
              || (s.phase.Asleep? && s.phase.woken && !step.Wake?)
              || step == Shutdown
              || (step.Add? && forall e | e in s.schedule :: step.when < e.when)
  {
    hide Agree, NodesBelow, FatesMatch, WakesInTime, Insert, Erase;
    FirstIsEarliest(s.schedule);
  }

  /** In every run the timer is being stopped exactly if shutdown was called with a thread. */
  lemma {:induction false} StopsExactly(states: seq<State>, steps: seq<Step>, k: nat)
    requires Run(states, steps) && k <= |steps|
    ensures states[k].stopping <==> exists j | 0 <= j < k :: steps[j] == Shutdown && states[j].phase != NoThread
  {
    hide Enabled, Insert, Erase;
    if k > 0 {
      StopsExactly(states, steps, k - 1);
    }
  }

  /** The last step that moved the thread. */
  function LastMove(steps: seq<Step>): Option<Step> {
    if steps == [] then None
    else
      var step := steps[|steps| - 1];
      if step.Init? || step.Begin? || step.Wake? || step.CallbackReturns? || step.Joined? then Some(step)
      else LastMove(steps[..|steps| - 1])
  }

  predicate StandsAs(move: Option<Step>, p: Phase) {
    match move
    case None => p == NoThread
    case Some(Joined) => p == NoThread
    case Some(Init) => p == Created
    case _ => p.Asleep? || p.InCallback? || p == Exited
  }

  /** There is a thread from init to the join, and it runs from its first step on. */
  lemma {:induction false} ThreadFollowsSteps(states: seq<State>, steps: seq<Step>, k: nat)
    requires Run(states, steps) && k <= |steps|
    ensures StandsAs(LastMove(steps[..k]), states[k].phase)
  {
    hide Next, Enabled, StandsAs;
    if k == 0 {
      NoThreadYet(states, steps);
    } else {
      ThreadFollowsSteps(states, steps, k - 1);
      assert steps[..k][..k - 1] == steps[..k - 1];
      ThreadMoves(states[k - 1], steps[k - 1], LastMove(steps[..k - 1]));
    }
  }

  lemma NoThreadYet(states: seq<State>, steps: seq<Step>)
    requires Run(states, steps)
    ensures StandsAs(None, states[0].phase)
  {
  }

  lemma ThreadMoves(s: State, step: Step, move: Option<Step>)
    requires Enabled(s, step) && StandsAs(move, s.phase)
    ensures var mine := step.Init? || step.Begin? || step.Wake? || step.CallbackReturns? || step.Joined?;
            StandsAs(if mine then Some(step) else move, Next(s, step).phase)
  {
    hide Insert, Erase;
  }

  // ------------------------------------------------------------------
  // The class

  class SafeTimer {
    const safeCallbacks: bool
    var schedule: seq<Entry>
    var events: map<Callback, nat>
    var stopping: bool
    var nextNode: nat
    var phase: Phase
    ghost var fate: map<Callback, Fate>

    ghost function Now(): State
      reads this
    {
      State(safeCallbacks, schedule, events, stopping, nextNode, phase, fate)
    }

    constructor (safe: bool)
      ensures Now() == Fresh(safe) && Inv(Now())
    {
      safeCallbacks := safe;
      schedule, events, stopping, nextNode, phase, fate := [], map[], false, 0, NoThread, map[];
    }

    method Signal()
      modifies this`phase
      ensures phase == Signalled(old(phase))
    {
      if phase.Asleep? {
        phase := phase.(woken := true);
      }
    }

    /** Where schedule.insert puts an entry. */
    method FindPlace(e: Entry) returns (at: nat)
      ensures at <= |schedule| && Insert(schedule, e) == schedule[..at] + [e] + schedule[at..]
      ensures at == 0 <==> schedule == [] || e.when < schedule[0].when
    {
      at := 0;
      while at < |schedule| && schedule[at].when <= e.when
        invariant 0 <= at <= |schedule|
        invariant Insert(schedule, e) == schedule[..at] + Insert(schedule[at..], e)
        invariant at == 0 || schedule[0].when <= e.when
      {
        InsertSkips(schedule, e, at);
        at := at + 1;
      }
      InsertHere(schedule, e, at);
    }

    method AddEventAt(when: Time, cb: Callback)
      requires Inv(Now()) && Enabled(Now(), Add(when, cb))
      modifies this
      ensures Now() == Next(old(Now()), Add(when, cb)) && Inv(Now())
      ensures forall e :: e in schedule <==> e in old(schedule) || e == Entry(old(nextNode), when, cb)
    {
      hide Insert, Inv;
      Keeps(Now(), Add(when, cb));
      var at := FindPlace(Entry(nextNode, when, cb));
      schedule := schedule[..at] + [Entry(nextNode, when, cb)] + schedule[at..];
      events := events[cb := nextNode];
      nextNode := nextNode + 1;
      fate := fate[cb := Pending];
      if at == 0 {
        Signal();
      }
    }

    /** True exactly when the callback was pending. */
    method CancelEvent(cb: Callback) returns (found: bool)
      requires Inv(Now())
      modifies this
      ensures Now() == Next(old(Now()), Cancel(cb)) && Inv(Now()) && (found <==> cb in old(events))
    {
      hide Inv;
      Keeps(Now(), Cancel(cb));
      if cb !in events {
        return false;
      }
      schedule := Erase(schedule, events[cb]);
      events := events - {cb};
      fate := fate[cb := Cancelled];
      return true;
    }

    method CancelAllEvents()
      requires Inv(Now())
      modifies this
      ensures Now() == Next(old(Now()), CancelAll) && Inv(Now())
    {
      hide Inv, Erase, Emptied;
      while events != map[]
        invariant Inv(Now()) && Emptied(Now()) == Emptied(old(Now()))
        decreases |events|
      {
        var cb :| cb in events;
        KeepsCancel(Now(), cb);
        EmptiedAfterCancel(Now(), cb);
        schedule := Erase(schedule, events[cb]);
        events := events - {cb};
        fate := fate[cb := Cancelled];
      }
      NothingLeft(Now());
    }

    /** timer_thread from reading the clock to the next callback, sleep or exit. */
    method RunDue(now: Time)
      modifies this
      ensures Now() == Loop(old(Now()), now)
    {
      if schedule != [] && schedule[0].when <= now {
        var cb := schedule[0].cb;
        events := events - {cb};
        schedule := schedule[1..];
        fate := fate[cb := Fired];
        phase := InCallback(now, cb);
        return;
      }
      if !safeCallbacks && stopping {
        phase := Exited;
        return;
      }
      phase := Asleep(if schedule == [] then None else Some(schedule[0].when), false);
    }

    /** One round of timer_thread's outer loop: its first, or one behind a wait. */
    method Round(now: Time)
      requires Inv(Now()) && (phase == Created || phase.Asleep?)
      modifies this
      ensures Now() == Next(old(Now()), if old(phase) == Created then Begin(now) else Wake(now)) && Inv(Now())
    {
      hide Inv;
      Keeps(Now(), if phase == Created then Begin(now) else Wake(now));
      if stopping {
        phase := Exited;
        return;
      }
      RunDue(now);
    }

    /** Behind callback->complete(0). */
    method CallbackDone()
      requires Inv(Now()) && phase.InCallback?
      modifies this
      ensures Now() == Next(old(Now()), CallbackReturns) && Inv(Now())
    {
      hide Inv;
      Keeps(Now(), CallbackReturns);
      RunDue(phase.now);
    }

    method Start()
      requires Inv(Now()) && Enabled(Now(), Init)
      modifies this
      ensures Now() == Next(old(Now()), Init) && Inv(Now())
    {
      hide Inv;
      Keeps(Now(), Init);
      phase := Created;
    }

    /** shutdown() up to the join; without a thread it does nothing, and there is nothing to join. */
    method Stop() returns (join: bool)
      requires Inv(Now()) && Enabled(Now(), Shutdown)
      modifies this
      ensures Now() == Next(old(Now()), Shutdown) && Inv(Now()) && (join <==> old(phase) != NoThread)
      ensures join ==> stopping && schedule == [] && events == map[]
    {
      hide Inv;
      Keeps(Now(), Shutdown);
      if phase == NoThread {
        return false;
      }
      CancelAllEvents();
      stopping := true;
      Signal();
      return true;
    }

    /** shutdown() behind the join. */
    method Join()
      requires Inv(Now()) && Enabled(Now(), Joined)
      modifies this
      ensures Now() == Next(old(Now()), Joined) && Inv(Now())
    {
      hide Inv;
      Keeps(Now(), Joined);
      phase := NoThread;
    }
  }

  lemma InsertSkips(s: seq<Entry>, e: Entry, at: nat)
    requires at < |s| && s[at].when <= e.when
    ensures s[..at] + Insert(s[at..], e) == s[..at + 1] + Insert(s[at + 1..], e)
  {
    assert s[at..][1..] == s[at + 1..];
  }

  lemma InsertHere(s: seq<Entry>, e: Entry, at: nat)
    requires at <= |s| && (at < |s| ==> e.when < s[at].when)
    ensures s[..at] + Insert(s[at..], e) == s[..at] + [e] + s[at..]
  {
  }

  lemma EmptiedAfterCancel(s: State, cb: Callback)
    requires Inv(s) && cb in s.events
    ensures Emptied(Next(s, Cancel(cb))) == Emptied(s)
  {
    hide Ordered, Agree, NodesBelow, Erase;
    assert Emptied(Next(s, Cancel(cb))).fate == Emptied(s).fate;
  }

  lemma NothingLeft(s: State)
    requires Inv(s) && s.events == map[]
    ensures Emptied(s) == s
  {
    if s.schedule != [] {
      HeadIsPending(s);
    }
    assert Emptied(s).fate == s.fate;
  }
}
