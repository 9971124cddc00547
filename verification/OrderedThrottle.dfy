/** class OrderedThrottle of common/Throttle.cc: operations finish in any order, their callbacks run
    in the order of their tids. The lock is dropped around each callback, so several threads may be
    inside complete_pending_ops; a step is what one thread does from getting the lock to the next
    point where it lets go of it. */
module OrderedThrottles {
  import opened Basics

  type Thread = nat

  const ENOENT: int := 2

  datatype Result = Result(finished: bool, retVal: int)

  /** start_op, given its tid, or wait_for_ret. */
  datatype Call = StartOp | WaitForRet

  datatype Phase =
    | Outside
    | Asleep(call: Call, woken: bool)
    | InCallback(call: Call, tid: nat, r: int)

  /** The fields; what each thread is doing; and a history: the result given for each tid, the
      callbacks started with their results, and the results passed to end_op. */
  datatype State = State(max: nat, current: nat, retVal: int, ignoreEnoent: bool,
                         nextTid: nat, completeTid: nat, tidResult: map<nat, Result>,
                         phases: map<Thread, Phase>,
                         given: map<nat, int>, started: seq<(nat, int)>, ends: seq<int>)
  {
    function PhaseOf(t: Thread): Phase { if t in phases then phases[t] else Outside }
  }

  datatype Step =
    | Start(t: Thread)
    | Wait(t: Thread)
    | Wake(t: Thread)
    | CallbackDone(t: Thread)
    | Finish(tid: nat, r: int)
    | End(r: int)

  /** The head of m_tid_result is the next tid to complete, and it has finished. */
  predicate Completable(s: State) {
    && s.completeTid in s.tidResult
    && (forall k | k in s.tidResult :: s.completeTid <= k)
    && s.tidResult[s.completeTid].finished
  }

  /** From complete_pending_ops up to the next release of the lock. */
  function Proceed(s: State, t: Thread, call: Call): State {
    if Completable(s) then
      var r := s.tidResult[s.completeTid].retVal;
      s.(tidResult := s.tidResult - {s.completeTid},
         started := s.started + [(s.completeTid, r)],
         phases := s.phases[t := InCallback(call, s.completeTid, r)])
    else Settle(s, t, call)
  }

  /** Sleep or return, when there is nothing to complete. */
  function Settle(s: State, t: Thread, call: Call): State {
    if (call == StartOp && s.max == s.current) || (call == WaitForRet && s.current > 0) then
      s.(phases := s.phases[t := Asleep(call, false)])
    else
      s.(current := if call == StartOp then s.current + 1 else s.current,
         phases := s.phases[t := Outside])
  }

  /** m_cond.Signal() wakes everybody who sleeps. */
  function Broadcast(s: State): State {
    s.(phases := map t | t in s.phases :: if s.phases[t].Asleep? then s.phases[t].(woken := true) else s.phases[t])
  }

  /** Each context finishes once; end_op asserts that an operation is running. */
  predicate Enabled(s: State, step: Step) {
    match step
    case Start(t) => s.PhaseOf(t) == Outside
    case Wait(t) => s.PhaseOf(t) == Outside
    case Wake(t) => s.PhaseOf(t).Asleep?
    case CallbackDone(t) => s.PhaseOf(t).InCallback?
    case Finish(tid, r) => tid < s.nextTid && tid !in s.given
    case End(r) => s.current > 0
  }

  predicate Ignored(ignoreEnoent: bool, r: int) {
    r >= 0 || (r == -ENOENT && ignoreEnoent)
  }

  function Next(s: State, step: Step): State
    requires Enabled(s, step)
  {
    match step
    case Start(t) =>
      Proceed(s.(nextTid := s.nextTid + 1, tidResult := s.tidResult[s.nextTid := Result(false, 0)]), t, StartOp)
    case Wait(t) => Proceed(s, t, WaitForRet)
    case Wake(t) => Proceed(s, t, s.PhaseOf(t).call)
    case CallbackDone(t) => Proceed(s.(completeTid := s.completeTid + 1), t, s.PhaseOf(t).call)
    case Finish(tid, r) =>
      Broadcast(s.(tidResult := s.tidResult[tid := Result(true, r)], given := s.given[tid := r]))
    case End(r) =>
      Broadcast(s.(retVal := if s.retVal == 0 && !Ignored(s.ignoreEnoent, r) then r else s.retVal,
                   current := s.current - 1, ends := s.ends + [r]))
  }

  // ------------------------------------------------------------------
  // What every step keeps

  /** The thread running a callback, if any. */
  ghost predicate InsideCallback(s: State, t: Thread) {
    t in s.phases && s.phases[t].InCallback?
  }

  ghost predicate Busy(s: State) {
    exists t :: InsideCallback(s, t)
  }

  /** Never two callbacks at a time, and the one that runs is the one whose turn it is. */
  ghost predicate OneCallback(s: State) {
    && (forall t, u | InsideCallback(s, t) && InsideCallback(s, u) :: t == u)
    && (forall t | InsideCallback(s, t) ::
          && |s.started| == s.completeTid + 1
          && s.started[s.completeTid] == (s.phases[t].tid, s.phases[t].r)
          && s.phases[t].tid == s.completeTid)
    && (!Busy(s) ==> |s.started| == s.completeTid)
  }

  /** m_tid_result holds exactly the operations whose callbacks have not started. */
  ghost predicate PendingExact(s: State) {
    && s.completeTid <= |s.started| <= s.nextTid
    && (forall k :: k in s.tidResult <==> |s.started| <= k < s.nextTid)
    && (forall k | k in s.tidResult :: s.tidResult[k].finished <==> k in s.given)
    && (forall k | k in s.tidResult && k in s.given :: s.tidResult[k].retVal == s.given[k])
    && (forall k | k in s.given :: k < s.nextTid)
  }

  /** Callbacks start in tid order, one for each tid, with the result its finish_op gave. */
  ghost predicate InOrder(s: State) {
    forall i | 0 <= i < |s.started| :: i in s.given && s.started[i] == (i, s.given[i])
  }

  /** The first negative result, or the first that is not -ENOENT either if those are ignored. */
  function FirstError(ends: seq<int>, ignoreEnoent: bool): int {
    if ends == [] then 0
    else if ends[0] < 0 && !(ignoreEnoent && ends[0] == -2) then ends[0]
    else FirstError(ends[1..], ignoreEnoent)
  }

  ghost predicate SleepsUnsignalled(s: State, t: Thread) {
    t in s.phases && s.phases[t].Asleep? && !s.phases[t].woken
  }

  /** With the lock free, a sleeper without a pending wake-up has a reason to sleep. */
  ghost predicate ReasonToSleep(s: State) {
    forall t | SleepsUnsignalled(s, t) ::
      if s.phases[t].call == StartOp then s.max == s.current else s.current > 0
  }

  /** And then there is nothing it could complete. */
  ghost predicate NothingMissed(s: State) {
    forall t | SleepsUnsignalled(s, t) :: !Completable(s)
  }

  ghost predicate Core(s: State) {
    && OneCallback(s)
    && PendingExact(s)
    && InOrder(s)
    && ReasonToSleep(s)
    && s.current <= s.max
    && s.retVal == FirstError(s.ends, s.ignoreEnoent)
  }

  ghost predicate Inv(s: State) {
    Core(s) && NothingMissed(s)
  }

  lemma {:induction false} FirstErrorOneMore(ends: seq<int>, r: int, ignoreEnoent: bool)
    ensures FirstError(ends + [r], ignoreEnoent)
         == if FirstError(ends, ignoreEnoent) != 0 then FirstError(ends, ignoreEnoent)
            else if Ignored(ignoreEnoent, r) then 0 else r
  {
    if ends == [] {
      assert ends + [r] == [r];
    } else {
      assert (ends + [r])[1..] == ends[1..] + [r];
      FirstErrorOneMore(ends[1..], r, ignoreEnoent);
    }
  }

  /** Changes that leave the callbacks alone. */
  lemma SameCallbacks(s: State, s': State)
    requires OneCallback(s) && s'.started == s.started && s'.completeTid == s.completeTid
    requires forall u :: InsideCallback(s', u) <==> InsideCallback(s, u)
    requires forall u | InsideCallback(s, u) :: u in s'.phases && s'.phases[u] == s.phases[u]
    ensures OneCallback(s')
  {
    if !Busy(s') {
      assert forall u :: !InsideCallback(s, u);
    }
  }

  /** Whatever a thread outside does next, it leaves nothing completable behind. */
  lemma KeepsProceed(s: State, t: Thread, call: Call)
    requires Core(s) && s.PhaseOf(t) == Outside
    ensures Inv(Proceed(s, t, call))
  {
    hide Core, Inv, Settle;
    if Completable(s) {
      StartsCallback(s, t, call);
    } else {
      Settles(s, t, call);
    }
  }

  lemma Settles(s: State, t: Thread, call: Call)
    requires Core(s) && s.PhaseOf(t) == Outside && !Completable(s)
    ensures Inv(Settle(s, t, call))
  {
    hide FirstError, OneCallback, PendingExact, InOrder, Completable, ReasonToSleep;
    var s' := Settle(s, t, call);
    SettledElsewhere(s, t, call);
    SettledReason(s, t, call);
    SameCallbacks(s, s');
    SamePending(s, s');
  }

  lemma SettledReason(s: State, t: Thread, call: Call)
    requires ReasonToSleep(s) && s.PhaseOf(t) == Outside && s.current <= s.max
    ensures ReasonToSleep(Settle(s, t, call)) && Settle(s, t, call).current <= s.max
  {
    SettledElsewhere(s, t, call);
  }

  lemma SettledElsewhere(s: State, t: Thread, call: Call)
    requires s.PhaseOf(t) == Outside
    ensures var s' := Settle(s, t, call);
            && (forall u :: InsideCallback(s', u) <==> InsideCallback(s, u))
            && (forall u | InsideCallback(s, u) :: u in s'.phases && s'.phases[u] == s.phases[u])
            && (forall u | u != t :: SleepsUnsignalled(s', u) <==> SleepsUnsignalled(s, u))
            && (Completable(s') <==> Completable(s))
  {
  }

  lemma SamePending(s: State, s': State)
    requires PendingExact(s) && InOrder(s)
    requires s'.completeTid == s.completeTid && s'.started == s.started && s'.nextTid == s.nextTid
    requires s'.tidResult == s.tidResult && s'.given == s.given
    ensures PendingExact(s') && InOrder(s')
  {
  }

  lemma StartsCallback(s: State, t: Thread, call: Call)
    requires Core(s) && s.PhaseOf(t) == Outside && Completable(s)
    ensures Inv(Proceed(s, t, call))
  {
    var s' := Proceed(s, t, call);
    CallbackStarts(s, s', t);
    hide FirstError, OneCallback, PendingExact, InOrder, Completable;
    assert forall u | u != t :: SleepsUnsignalled(s', u) <==> SleepsUnsignalled(s, u);
  }

  lemma CallbackStarts(s: State, s': State, t: Thread)
    requires OneCallback(s) && PendingExact(s) && InOrder(s) && Completable(s) && s.PhaseOf(t) == Outside
    requires s'.tidResult == s.tidResult - {s.completeTid} && s'.completeTid == s.completeTid
    requires s'.nextTid == s.nextTid && s'.given == s.given
    requires s'.started == s.started + [(s.completeTid, s.tidResult[s.completeTid].retVal)]
    requires exists call :: s'.phases == s.phases[t := InCallback(call, s.completeTid, s.tidResult[s.completeTid].retVal)]
    ensures OneCallback(s') && PendingExact(s') && InOrder(s') && !Completable(s')
  {
    assert !Busy(s);
    assert forall u :: InsideCallback(s', u) ==> u == t by {
      forall u | InsideCallback(s', u) ensures u == t {
        if u != t {
          assert InsideCallback(s, u);
        }
      }
    }
    assert InsideCallback(s', t);
  }

  lemma KeepsStart(s: State, t: Thread)
    requires Inv(s) && Enabled(s, Start(t))
    ensures Inv(Next(s, Start(t)))
  {
    hide FirstError, OneCallback, Proceed;
    var s1 := s.(nextTid := s.nextTid + 1, tidResult := s.tidResult[s.nextTid := Result(false, 0)]);
    assert forall u :: InsideCallback(s1, u) <==> InsideCallback(s, u);
    SameCallbacks(s, s1);
    assert forall u :: SleepsUnsignalled(s1, u) <==> SleepsUnsignalled(s, u);
    KeepsProceed(s1, t, StartOp);
  }

  lemma SameCompletable(s: State, s': State)
    requires s'.tidResult == s.tidResult && s'.completeTid == s.completeTid
    ensures Completable(s') == Completable(s)
  {
  }

  lemma SetTwice(phases: map<Thread, Phase>, t: Thread, p: Phase, q: Phase)
    ensures phases[t := p][t := q] == phases[t := q]
  {
  }

  lemma ProceedOverwrites(s: State, t: Thread, p: Phase, call: Call)
    ensures Proceed(s.(phases := s.phases[t := p]), t, call) == Proceed(s, t, call)
  {
    hide Completable;
    var s1 := s.(phases := s.phases[t := p]);
    SameCompletable(s, s1);
    SetTwice(s.phases, t, p, Proceed(s, t, call).PhaseOf(t));
  }

  /** A thread that is on its way counts as outside until it sleeps or runs a callback. */
  lemma KeepsMoving(s: State, t: Thread, call: Call)
    requires Inv(s) && !s.PhaseOf(t).InCallback?
    ensures Inv(Proceed(s, t, call))
  {
    hide FirstError, Proceed;
    var s1 := s.(phases := s.phases[t := Outside]);
    assert forall u :: InsideCallback(s1, u) <==> InsideCallback(s, u);
    assert forall u | SleepsUnsignalled(s1, u) :: SleepsUnsignalled(s, u);
    KeepsProceed(s1, t, call);
    ProceedOverwrites(s, t, Outside, call);
  }

  lemma KeepsDone(s: State, t: Thread)
    requires Inv(s) && Enabled(s, CallbackDone(t))
    ensures Inv(Next(s, CallbackDone(t)))
  {
    hide FirstError, Proceed;
    var s1 := s.(completeTid := s.completeTid + 1, phases := s.phases[t := Outside]);
    assert InsideCallback(s, t);
    forall u ensures !InsideCallback(s1, u) {
      assert InsideCallback(s1, u) ==> InsideCallback(s, u) && u != t;
    }
    assert forall u | SleepsUnsignalled(s1, u) :: SleepsUnsignalled(s, u);
    KeepsProceed(s1, t, s.PhaseOf(t).call);
    ProceedOverwrites(s.(completeTid := s.completeTid + 1), t, Outside, s.PhaseOf(t).call);
  }

  lemma BroadcastKeeps(s: State)
    requires OneCallback(s) && PendingExact(s) && InOrder(s) && s.current <= s.max
    requires s.retVal == FirstError(s.ends, s.ignoreEnoent)
    ensures Inv(Broadcast(s))
  {
    hide FirstError;
    var s' := Broadcast(s);
    assert forall u :: InsideCallback(s', u) <==> InsideCallback(s, u);
    assert forall u :: !SleepsUnsignalled(s', u);
  }

  lemma KeepsFinish(s: State, tid: nat, r: int)
    requires Inv(s) && Enabled(s, Finish(tid, r))
    ensures Inv(Next(s, Finish(tid, r)))
  {
    hide FirstError;
    var s1 := s.(tidResult := s.tidResult[tid := Result(true, r)], given := s.given[tid := r]);
    assert forall u :: InsideCallback(s1, u) <==> InsideCallback(s, u);
    BroadcastKeeps(s1);
  }

  lemma KeepsEnd(s: State, r: int)
    requires Inv(s) && Enabled(s, End(r))
    ensures Inv(Next(s, End(r)))
  {
    hide OneCallback, PendingExact, InOrder, Broadcast, FirstError, Ignored;
    var s1 := s.(retVal := if s.retVal == 0 && !Ignored(s.ignoreEnoent, r) then r else s.retVal,
                 current := s.current - 1, ends := s.ends + [r]);
    FirstErrorOneMore(s.ends, r, s.ignoreEnoent);
    SameCallbacks(s, s1);
    SamePending(s, s1);
    BroadcastKeeps(s1);
  }

  lemma Keeps(s: State, step: Step)
    requires Inv(s) && Enabled(s, step)
    ensures Inv(Next(s, step))
  {
    hide Inv;
    match step {
      case Start(t) => KeepsStart(s, t);
      case Wait(t) => KeepsMoving(s, t, WaitForRet);
      case Wake(t) => KeepsMoving(s, t, s.PhaseOf(t).call);
      case CallbackDone(t) => KeepsDone(s, t);
      case Finish(tid, r) => KeepsFinish(s, tid, r);
      case End(r) => KeepsEnd(s, r);
    }
  }

  // ------------------------------------------------------------------
  // Whole runs

  function Fresh(max: nat, ignoreEnoent: bool): State {
    State(max, 0, 0, ignoreEnoent, 0, 0, map[], map[], map[], [], [])
  }

  ghost predicate Run(states: seq<State>, steps: seq<Step>) {
    && |states| == |steps| + 1
    && (exists max, ignoreEnoent :: states[0] == Fresh(max, ignoreEnoent))
    && forall i | 0 <= i < |steps| :: Enabled(states[i], steps[i]) && states[i + 1] == Next(states[i], steps[i])
  }

  lemma {:induction false} RunKeeps(states: seq<State>, steps: seq<Step>, k: nat)
    requires Run(states, steps) && k < |states|
    ensures Inv(states[k])
  {
    if k > 0 {
      RunKeeps(states, steps, k - 1);
      Keeps(states[k - 1], steps[k - 1]);
    }
  }

  // ------------------------------------------------------------------
  // What the steps say

  /** Whether a step is taken by a thread in start_op or wait_for_ret. */
  predicate OfThread(step: Step) {
    !step.Finish? && !step.End?
  }

  /** The callback a step starts, seen from where its thread stands behind it. */
  function Begun(step: Step, s': State): seq<(nat, int)> {
    if OfThread(step) && s'.PhaseOf(step.t).InCallback? then [(s'.PhaseOf(step.t).tid, s'.PhaseOf(step.t).r)] else []
  }

  /** All callbacks started by the first k steps, with the results they were given. */
  ghost function Callbacks(states: seq<State>, steps: seq<Step>, k: nat): seq<(nat, int)>
    requires k <= |steps| < |states|
  {
    if k == 0 then [] else Callbacks(states, steps, k - 1) + Begun(steps[k - 1], states[k])
  }

  /** How many operations were started, and how many callbacks have returned. */
  function Starts(steps: seq<Step>): nat {
    if steps == [] then 0 else Starts(steps[..|steps| - 1]) + if steps[|steps| - 1].Start? then 1 else 0
  }

  function Returns(steps: seq<Step>): nat {
    if steps == [] then 0 else Returns(steps[..|steps| - 1]) + if steps[|steps| - 1].CallbackDone? then 1 else 0
  }

  /** The results passed to end_op. */
  function Ends(steps: seq<Step>): seq<int> {
    if steps == [] then []
    else Ends(steps[..|steps| - 1]) + if steps[|steps| - 1].End? then [steps[|steps| - 1].r] else []
  }

  /** finish_op was called for the tid with that result. */
  ghost predicate FinishedWith(steps: seq<Step>, tid: nat, r: int) {
    Finish(tid, r) in steps
  }

  ghost predicate Finished(steps: seq<Step>, tid: nat) {
    exists r :: FinishedWith(steps, tid, r)
  }

  /** The call a thread is in: the last one it made. */
  function LastCall(steps: seq<Step>, t: Thread): Option<Call> {
    if steps == [] then None
    else
      match steps[|steps| - 1]
      case Start(u) => if u == t then Some(StartOp) else LastCall(steps[..|steps| - 1], t)
      case Wait(u) => if u == t then Some(WaitForRet) else LastCall(steps[..|steps| - 1], t)
      case _ => LastCall(steps[..|steps| - 1], t)
  }

  lemma LastStep(steps: seq<Step>, k: nat)
    requires k < |steps|
    ensures steps[..k + 1] == steps[..k] + [steps[k]] && steps[..k + 1][..k] == steps[..k]
  {
  }

  lemma ProceedIsNoted(s: State, t: Thread, call: Call)
    ensures var s' := Proceed(s, t, call);
            && s'.max == s.max && s'.ignoreEnoent == s.ignoreEnoent && s'.nextTid == s.nextTid
            && s'.completeTid == s.completeTid && s'.ends == s.ends && s'.given == s.given
            && s'.started == s.started
               + if s'.PhaseOf(t).InCallback? then [(s'.PhaseOf(t).tid, s'.PhaseOf(t).r)] else []
  {
    hide Completable;
  }

  /** What one step does to the counters and to the history. */
  lemma StepIsNoted(s: State, step: Step)
    requires Enabled(s, step)
    ensures var s' := Next(s, step);
            && s'.max == s.max && s'.ignoreEnoent == s.ignoreEnoent
            && s'.started == s.started + Begun(step, s')
            && s'.nextTid == s.nextTid + (if step.Start? then 1 else 0)
            && s'.completeTid == s.completeTid + (if step.CallbackDone? then 1 else 0)
            && s'.ends == s.ends + (if step.End? then [step.r] else [])
            && s'.given == (if step.Finish? then s.given[step.tid := step.r] else s.given)
  {
    hide Proceed;
    match step {
      case Start(t) =>
        var s1 := s.(nextTid := s.nextTid + 1, tidResult := s.tidResult[s.nextTid := Result(false, 0)]);
        ProceedIsNoted(s1, t, StartOp);
      case Wait(t) => ProceedIsNoted(s, t, WaitForRet);
      case Wake(t) => ProceedIsNoted(s, t, s.PhaseOf(t).call);
      case CallbackDone(t) => ProceedIsNoted(s.(completeTid := s.completeTid + 1), t, s.PhaseOf(t).call);
      case Finish(_, _) =>
      case End(_) =>
    }
  }

  /** The history and the counters are those of the steps, in every run. */
  lemma {:induction false} HistoryIsSteps(states: seq<State>, steps: seq<Step>, k: nat)
    requires Run(states, steps) && k <= |steps|
    ensures var s := states[k];
            && s.max == states[0].max && s.ignoreEnoent == states[0].ignoreEnoent
            && s.started == Callbacks(states, steps, k)
            && s.nextTid == Starts(steps[..k])
            && s.completeTid == Returns(steps[..k])
            && s.ends == Ends(steps[..k])
  {
    hide Next, Enabled, Begun;
    if k > 0 {
      HistoryIsSteps(states, steps, k - 1);
      StepIsNoted(states[k - 1], steps[k - 1]);
      LastStep(steps, k - 1);
      NothingMore(states[k - 1]);
    }
  }

  lemma NothingMore(s: State)
    ensures s.ends + [] == s.ends && s.started + [] == s.started
  {
  }

  /** In every run the result kept for a tid is the one its finish_op was called with. */
  lemma {:induction false} GivenIsFinished(states: seq<State>, steps: seq<Step>, k: nat, tid: nat, r: int)
    requires Run(states, steps) && k <= |steps|
    ensures tid in states[k].given && states[k].given[tid] == r <==> FinishedWith(steps[..k], tid, r)
  {
    hide Next;
    if k > 0 {
      GivenIsFinished(states, steps, k - 1, tid, r);
      StepIsNoted(states[k - 1], steps[k - 1]);
      LastStep(steps, k - 1);
    }
  }

  /** In every run: callbacks start in tid order, each once and with the result its finish_op was called
      with, never two at a time; no more than max operations are on; the first error is kept. */
  lemma CallbacksInOrder(states: seq<State>, steps: seq<Step>, k: nat, t: Thread, u: Thread)
    requires Run(states, steps) && k <= |steps|
    ensures var s, calls := states[k], Callbacks(states, steps, k);
            && (forall i | 0 <= i < |calls| :: calls[i].0 == i && FinishedWith(steps[..k], i, calls[i].1))
            && Returns(steps[..k]) <= |calls| <= Returns(steps[..k]) + 1 && |calls| <= Starts(steps[..k])
            && (s.PhaseOf(t).InCallback? && s.PhaseOf(u).InCallback? ==> t == u)
            && s.current <= states[0].max
            && s.retVal == FirstError(Ends(steps[..k]), states[0].ignoreEnoent)
  {
    hide Next, Enabled, FirstError;
    RunKeeps(states, steps, k);
    HistoryIsSteps(states, steps, k);
    var s, calls := states[k], Callbacks(states, steps, k);
    assert InsideCallback(s, t) == s.PhaseOf(t).InCallback? && InsideCallback(s, u) == s.PhaseOf(u).InCallback?;
    if Busy(s) {
      var w :| InsideCallback(s, w);
    }
    forall i | 0 <= i < |calls| ensures calls[i].0 == i && FinishedWith(steps[..k], i, calls[i].1) {
      GivenIsFinished(states, steps, k, i, calls[i].1);
    }
  }

  /** start_op returns with a step. */
  predicate Enters(s: State, step: Step, s': State) {
    && (step.Start? || ((step.Wake? || step.CallbackDone?) && !s.PhaseOf(step.t).Outside? && s.PhaseOf(step.t).call == StartOp))
    && s'.PhaseOf(step.t) == Outside
  }

  /** The operations let in by the first k steps, less those ended. */
  ghost function Running(states: seq<State>, steps: seq<Step>, k: nat): int
    requires k <= |steps| < |states|
  {
    if k == 0 then 0
    else Running(states, steps, k - 1)
         + (if Enters(states[k - 1], steps[k - 1], states[k]) then 1 else 0)
         - (if steps[k - 1].End? then 1 else 0)
  }

  lemma {:induction false} CurrentIsRunning(states: seq<State>, steps: seq<Step>, k: nat)
    requires Run(states, steps) && k <= |steps|
    ensures states[k].current == Running(states, steps, k)
  {
    hide Next, Enabled, Enters;
    if k > 0 {
      CurrentIsRunning(states, steps, k - 1);
      CurrentChanges(states[k - 1], steps[k - 1]);
    }
  }

  lemma CurrentChanges(s: State, step: Step)
    requires Enabled(s, step)
    ensures var s' := Next(s, step);
            s'.current == s.current + (if Enters(s, step, s') then 1 else 0) - if step.End? then 1 else 0
  {
    hide Completable;
  }

  /** A thread that sleeps or runs a callback does so in the call it made last. */
  lemma {:induction false} CallIsLast(states: seq<State>, steps: seq<Step>, k: nat, t: Thread)
    requires Run(states, steps) && k <= |steps| && states[k].PhaseOf(t) != Outside
    ensures LastCall(steps[..k], t) == Some(states[k].PhaseOf(t).call)
  {
    hide Next, Enabled;
    assert k > 0;
    LastStep(steps, k - 1);
    CallKept(states[k - 1], steps[k - 1], t);
    if steps[k - 1] != Start(t) && steps[k - 1] != Wait(t) {
      CallIsLast(states, steps, k - 1, t);
    }
  }

  lemma CallKept(s: State, step: Step, t: Thread)
    requires Enabled(s, step) && Next(s, step).PhaseOf(t) != Outside
    ensures var p := Next(s, step).PhaseOf(t);
            if step == Start(t) then p.call == StartOp
            else if step == Wait(t) then p.call == WaitForRet
            else s.PhaseOf(t) != Outside && s.PhaseOf(t).call == p.call
  {
    hide Completable;
  }

  /** The call a thread's step goes on with. */
  function CallOf(s: State, step: Step): Call
    requires OfThread(step) && Enabled(s, step)
  {
    if step.Start? then StartOp else if step.Wait? then WaitForRet else s.PhaseOf(step.t).call
  }

  /** A thread that does not start a callback goes to sleep exactly while it has to wait: start_op for a
      place, wait_for_ret for all operations to end. Otherwise its call returns. */
  lemma SleepsExactly(s: State, step: Step)
    requires OfThread(step) && Enabled(s, step) && !Next(s, step).PhaseOf(step.t).InCallback?
    ensures var p := Next(s, step).PhaseOf(step.t);
            p == if (if CallOf(s, step) == StartOp then s.current == s.max else s.current > 0)
                 then Asleep(CallOf(s, step), false) else Outside
  {
    hide Completable;
  }

  /** A sleeper is woken exactly by a finish_op or end_op, until it goes on. */
  lemma WokenExactly(s: State, step: Step, t: Thread)
    requires Enabled(s, step) && Next(s, step).PhaseOf(t).Asleep?
    ensures Next(s, step).PhaseOf(t).woken <==>
              !OfThread(step) || (s.PhaseOf(t).Asleep? && s.PhaseOf(t).woken && step.t != t)
  {
    hide Completable;
  }

  /** Every callback has been started and has returned. */
  predicate AllRun(s: State) {
    |s.started| == s.completeTid == s.nextTid && s.tidResult == map[]
  }

  predicate AllFinished(s: State) {
    forall tid: nat | tid < s.nextTid :: tid in s.given
  }

  /** Every operation started by the first k steps has had its callback, which has returned. */
  ghost predicate AllCalled(states: seq<State>, steps: seq<Step>, k: nat)
    requires k <= |steps| < |states|
  {
    |Callbacks(states, steps, k)| == Returns(steps[..k]) == Starts(steps[..k])
  }

  /** finish_op was called for every operation that was started. */
  ghost predicate EachFinished(steps: seq<Step>) {
    forall tid: nat | tid < Starts(steps) :: Finished(steps, tid)
  }

  lemma FinishedIs(states: seq<State>, steps: seq<Step>, k: nat)
    requires Run(states, steps) && k <= |steps|
    ensures EachFinished(steps[..k]) <==> AllFinished(states[k])
    ensures AllCalled(states, steps, k) <==> AllRun(states[k])
  {
    hide Next, Enabled, FirstError, FinishedWith;
    RunKeeps(states, steps, k);
    HistoryIsSteps(states, steps, k);
    forall tid: nat ensures tid in states[k].given <==> Finished(steps[..k], tid) {
      if tid in states[k].given {
        GivenIsFinished(states, steps, k, tid, states[k].given[tid]);
      }
      if Finished(steps[..k], tid) {
        var r :| FinishedWith(steps[..k], tid, r);
        GivenIsFinished(states, steps, k, tid, r);
      }
    }
    assert AllCalled(states, steps, k) ==> states[k].tidResult == map[];
  }

  /** Together with CallbacksInOrder, exactly once: in every state of every run all callbacks have run
      if and only if every operation has finished, no callback is going on, and none can be started. */
  lemma EveryCallbackRuns(states: seq<State>, steps: seq<Step>, k: nat)
    requires Run(states, steps) && k <= |steps|
    ensures AllCalled(states, steps, k) <==> EachFinished(steps[..k]) && !Busy(states[k]) && !Completable(states[k])
  {
    hide Next, Enabled, FirstError;
    RunKeeps(states, steps, k);
    FinishedIs(states, steps, k);
    var s := states[k];
    if Busy(s) {
      var t :| InsideCallback(s, t);
      assert |s.started| == s.completeTid + 1;
    } else {
      NoneLeft(s);
    }
  }

  /** With nothing going on, the next operation is completable as soon as it has finished. */
  lemma NextIsCompletable(s: State)
    requires OneCallback(s) && PendingExact(s) && !Busy(s) && s.completeTid < s.nextTid
    ensures Completable(s) <==> s.completeTid in s.given
  {
  }

  /** Whoever comes by next starts a callback that can be started, with the result given for it. */
  lemma StartsWhatCan(s: State, step: Step)
    requires Inv(s) && Enabled(s, step) && Completable(s) && (step.Start? || step.Wait? || step.Wake?)
    ensures s.completeTid in s.given
    ensures Next(s, step).started == s.started + [(s.completeTid, s.given[s.completeTid])]
    ensures Next(s, step).PhaseOf(step.t).InCallback?
  {
    hide FirstError;
  }

  /** A thread that comes back from a callback starts the next one if that operation has finished. */
  lemma StartsNextAfterCallback(s: State, t: Thread)
    requires Inv(s) && Enabled(s, CallbackDone(t)) && s.completeTid + 1 < s.nextTid && s.completeTid + 1 in s.given
    ensures var s' := Next(s, CallbackDone(t));
            && s'.completeTid == s.completeTid + 1
            && s'.started == s.started + [(s'.completeTid, s.given[s'.completeTid])]
            && s'.PhaseOf(t).InCallback? && s'.PhaseOf(t).call == s.PhaseOf(t).call
  {
    hide FirstError;
    assert InsideCallback(s, t);
  }

  /** Thread t goes through the callbacks it finds, undisturbed. */
  function CallbacksOf(s: State, t: Thread): State
    decreases s.nextTid - s.completeTid
  {
    if s.PhaseOf(t).InCallback? && s.completeTid < s.nextTid then
      CallbackCounts(s, t);
      CallbacksOf(Next(s, CallbackDone(t)), t)
    else s
  }

  lemma CallbackCounts(s: State, t: Thread)
    requires Enabled(s, CallbackDone(t))
    ensures Next(s, CallbackDone(t)).completeTid == s.completeTid + 1 && Next(s, CallbackDone(t)).nextTid == s.nextTid
  {
  }

  /** When every operation has finished and ended, one undisturbed wait_for_ret runs every callback that
      has not run yet and then comes back. */
  lemma WaitRunsThemAll(s: State, t: Thread)
    requires Inv(s) && AllFinished(s) && s.current == 0 && !Busy(s) && s.PhaseOf(t) == Outside
    ensures var s' := CallbacksOf(Next(s, Wait(t)), t); AllRun(s') && s'.PhaseOf(t) == Outside
  {
    hide Inv, Next, CallbacksOf;
    Keeps(s, Wait(t));
    WaitBegins(s, t);
    RunsTheRest(Next(s, Wait(t)), t);
  }

  /** Thread t is in wait_for_ret with a callback, or is back with nothing left to do. */
  ghost predicate OnItsWay(s: State, t: Thread) {
    && AllFinished(s)
    && s.current == 0
    && if s.PhaseOf(t) == Outside then !Busy(s) && !Completable(s)
       else s.PhaseOf(t).InCallback? && s.PhaseOf(t).call == WaitForRet
  }

  lemma WaitBegins(s: State, t: Thread)
    requires Inv(s) && AllFinished(s) && s.current == 0 && !Busy(s) && s.PhaseOf(t) == Outside
    ensures OnItsWay(Next(s, Wait(t)), t)
  {
    hide FirstError;
    var s' := Next(s, Wait(t));
    assert forall u | u != t :: InsideCallback(s', u) ==> InsideCallback(s, u);
  }

  lemma CallbackStep(s: State, t: Thread)
    requires Inv(s) && OnItsWay(s, t) && s.PhaseOf(t).InCallback?
    ensures s.completeTid < s.nextTid && OnItsWay(Next(s, CallbackDone(t)), t)
  {
    hide FirstError;
    assert InsideCallback(s, t);
    var s' := Next(s, CallbackDone(t));
    assert forall u | u != t :: InsideCallback(s', u) ==> InsideCallback(s, u);
  }

  lemma {:induction false} RunsTheRest(s: State, t: Thread)
    requires Inv(s) && OnItsWay(s, t)
    ensures var s' := CallbacksOf(s, t); AllRun(s') && s'.PhaseOf(t) == Outside
    decreases s.nextTid - s.completeTid
  {
    hide Inv, Next;
    if s.PhaseOf(t).InCallback? {
      CallbackStep(s, t);
      CallbackCounts(s, t);
      Keeps(s, CallbackDone(t));
      RunsTheRest(Next(s, CallbackDone(t)), t);
    } else {
      NoneLeft(s);
    }
  }

  /** With everything finished, none going on and none to start, all have run. */
  lemma NoneLeft(s: State)
    requires Inv(s) && !Busy(s)
    ensures AllRun(s) <==> AllFinished(s) && !Completable(s)
  {
    hide FirstError;
    if s.completeTid < s.nextTid {
      NextIsCompletable(s);
    }
  }

  /** finish_op always finds its tid: the assertion there never fails. */
  lemma FinishFinds(s: State, tid: nat, r: int)
    requires Inv(s) && Enabled(s, Finish(tid, r))
    ensures tid in s.tidResult && !s.tidResult[tid].finished
  {
  }

  /** The step with which thread t comes back from wait_for_ret: at once, after a sleep, or after a
      callback. */
  predicate ReturnsFromWait(s: State, step: Step, t: Thread) {
    && Enabled(s, step)
    && (step == Wait(t) || (step == Wake(t) && s.PhaseOf(t).call == WaitForRet)
        || (step == CallbackDone(t) && s.PhaseOf(t).call == WaitForRet))
    && Next(s, step).PhaseOf(t) == Outside
  }

  /** However wait_for_ret comes back, nothing runs and nothing is left to complete, and its result is
      the first error; and all callbacks have run if and only if every operation has finished and no
      other thread is inside a callback. */
  lemma WaitReturns(states: seq<State>, steps: seq<Step>, k: nat, t: Thread)
    requires Run(states, steps) && k < |steps| && ReturnsFromWait(states[k], steps[k], t)
    ensures var s := states[k + 1];
            && s.current == 0 && !Completable(s)
            && s.retVal == FirstError(Ends(steps[..k + 1]), states[0].ignoreEnoent)
            && (AllCalled(states, steps, k + 1) <==> EachFinished(steps[..k + 1]) && forall u | u != t :: !InsideCallback(s, u))
  {
    hide FirstError, AllCalled, EachFinished, Enabled, Next;
    var s := states[k + 1];
    EveryCallbackRuns(states, steps, k + 1);
    CallbacksInOrder(states, steps, k + 1, t, t);
    RunKeeps(states, steps, k + 1);
    SettledOnReturn(states[k], steps[k], t);
    assert !InsideCallback(s, t);
    assert Busy(s) <==> exists u :: u != t && InsideCallback(s, u);
  }

  lemma SettledOnReturn(s: State, step: Step, t: Thread)
    requires ReturnsFromWait(s, step, t)
    ensures Next(s, step).current == 0 && !Completable(Next(s, step))
  {
  }

  lemma RunOn(states: seq<State>, steps: seq<Step>, step: Step)
    requires Run(states, steps) && Enabled(states[|steps|], step)
    ensures Run(states + [Next(states[|steps|], step)], steps + [step])
  {
    hide Next, Enabled;
  }

  lemma OneFinished() returns (states: seq<State>, steps: seq<Step>)
    ensures Run(states, steps) && |steps| == 3
    ensures var s := states[3];
            && s.current == 0 && s.tidResult == map[0 := Result(true, 0)] && s.nextTid == 1 && s.completeTid == 0
            && s.started == [] && s.given == map[0 := 0]
            && s.PhaseOf(0) == Outside && s.PhaseOf(1) == Outside && s.PhaseOf(2) == Outside
  {
    var s0 := Fresh(1, false);
    var s1 := Next(s0, Start(0));
    assert s1.current == 1 && s1.tidResult == map[0 := Result(false, 0)];
    var s2 := Next(s1, Finish(0, 0));
    states, steps := [s0, s1, s2, Next(s2, End(0))], [Start(0), Finish(0, 0), End(0)];
  }

  /** Thread 2 comes back although the callback of the only operation is still going on in thread 1. */
  lemma ReturnsDuringCallback() returns (states: seq<State>, steps: seq<Step>)
    ensures Run(states, steps) && |steps| == 5 && ReturnsFromWait(states[4], steps[4], 2)
    ensures AllFinished(states[5]) && InsideCallback(states[5], 1) && !AllRun(states[5])
  {
    hide Run;
    states, steps := OneFinished();
    RunLength(states, steps);
    RunOn(states, steps, Wait(1));
    states, steps := states + [Next(states[3], Wait(1))], steps + [Wait(1)];
    RunOn(states, steps, Wait(2));
    states, steps := states + [Next(states[4], Wait(2))], steps + [Wait(2)];
  }

  lemma RunLength(states: seq<State>, steps: seq<Step>)
    requires Run(states, steps)
    ensures |states| == |steps| + 1
  {
  }

  /** And it comes back although an operation that was ended has not finished. */
  lemma ReturnsBeforeFinish() returns (states: seq<State>, steps: seq<Step>)
    ensures Run(states, steps) && |steps| == 3 && ReturnsFromWait(states[2], steps[2], 1)
    ensures !AllFinished(states[3]) && !Busy(states[3]) && !AllRun(states[3])
  {
    steps := [Start(0), End(0), Wait(1)];
    var s0 := Fresh(1, false);
    var s1 := Next(s0, Start(0));
    var s2 := Next(s1, End(0));
    var s3 := Next(s2, Wait(1));
    states := [s0, s1, s2, s3];
    assert 0 < s3.nextTid && 0 !in s3.given;
  }

  // ------------------------------------------------------------------
  // The class

  class OrderedThrottle {
    const max: nat
    var current: nat
    var retVal: int
    const ignoreEnoent: bool
    var nextTid: nat
    var completeTid: nat
    var tidResult: map<nat, Result>
    var phases: map<Thread, Phase>
    ghost var given: map<nat, int>
    ghost var started: seq<(nat, int)>
    ghost var ends: seq<int>

    ghost function Now(): State
      reads this
    {
      State(max, current, retVal, ignoreEnoent, nextTid, completeTid, tidResult, phases, given, started, ends)
    }

    constructor (max: nat, ignoreEnoent: bool)
      ensures Now() == Fresh(max, ignoreEnoent) && Inv(Now())
    {
      this.max, this.ignoreEnoent := max, ignoreEnoent;
      current, retVal, nextTid, completeTid := 0, 0, 0, 0;
      tidResult, phases, given, started, ends := map[], map[], map[], [], [];
    }

    /** complete_pending_ops until it drops the lock for a callback (`running`) or has nothing left. */
    method CompletePending(t: Thread, call: Call) returns (running: bool)
      modifies this
      ensures running <==> old(Completable(Now()))
      ensures running ==> Now() == Proceed(old(Now()), t, call)
      ensures !running ==> Now() == old(Now())
    {
      if completeTid !in tidResult || (exists k | k in tidResult :: k < completeTid) || !tidResult[completeTid].finished {
        return false;
      }
      var r := tidResult[completeTid].retVal;
      tidResult := tidResult - {completeTid};
      started := started + [(completeTid, r)];
      phases := phases[t := InCallback(call, completeTid, r)];
      return true;
    }

    /** The rest of start_op or wait_for_ret up to the next release of the lock. */
    method GoOn(t: Thread, call: Call)
      modifies this
      ensures Now() == Proceed(old(Now()), t, call)
    {
      var running := CompletePending(t, call);
      if running {
        return;
      }
      if (call == StartOp && max == current) || (call == WaitForRet && current > 0) {
        phases := phases[t := Asleep(call, false)];
        return;
      }
      if call == StartOp {
        current := current + 1;
      }
      phases := phases[t := Outside];
    }

    method BeginOp(t: Thread)
      requires Inv(Now()) && Enabled(Now(), Start(t))
      modifies this
      ensures Now() == Next(old(Now()), Start(t)) && Inv(Now())
    {
      hide Proceed, Inv;
      Keeps(Now(), Start(t));
      tidResult := tidResult[nextTid := Result(false, 0)];
      nextTid := nextTid + 1;
      GoOn(t, StartOp);
    }

    /** wait_for_ret up to the first release of the lock. */
    method BeginWait(t: Thread)
      requires Inv(Now()) && Enabled(Now(), Wait(t))
      modifies this
      ensures Now() == Next(old(Now()), Wait(t)) && Inv(Now())
    {
      hide Proceed, Inv;
      Keeps(Now(), Wait(t));
      GoOn(t, WaitForRet);
    }

    /** Behind a return from m_cond.Wait. */
    method WokenUp(t: Thread)
      requires Inv(Now()) && Enabled(Now(), Wake(t))
      modifies this
      ensures Now() == Next(old(Now()), Wake(t)) && Inv(Now())
    {
      hide Proceed, Inv;
      Keeps(Now(), Wake(t));
      GoOn(t, phases[t].call);
    }

    method CallbackReturned(t: Thread)
      requires Inv(Now()) && Enabled(Now(), CallbackDone(t))
      modifies this
      ensures Now() == Next(old(Now()), CallbackDone(t)) && Inv(Now())
    {
      hide Proceed, Inv;
      Keeps(Now(), CallbackDone(t));
      var call := phases[t].call;
      completeTid := completeTid + 1;
      GoOn(t, call);
    }

    method SignalAll()
      modifies this`phases
      ensures Now() == Broadcast(old(Now()))
    {
      phases := map t | t in phases :: if phases[t].Asleep? then phases[t].(woken := true) else phases[t];
    }

    method FinishOp(tid: nat, r: int)
      requires Inv(Now()) && Enabled(Now(), Finish(tid, r))
      modifies this
      ensures Now() == Next(old(Now()), Finish(tid, r)) && Inv(Now())
      ensures tidResult == old(tidResult)[tid := Result(true, r)]
    {
      hide Inv;
      Keeps(Now(), Finish(tid, r));
      tidResult := tidResult[tid := Result(true, r)];
      given := given[tid := r];
      SignalAll();
    }

    method EndOp(r: int)
      requires Inv(Now()) && Enabled(Now(), End(r))
      modifies this
      ensures Now() == Next(old(Now()), End(r)) && Inv(Now())
    {
      hide Inv;
      Keeps(Now(), End(r));
      if r < 0 && retVal == 0 && (r != -ENOENT || !ignoreEnoent) {
        retVal := r;
      }
      current := current - 1;
      ends := ends + [r];
      SignalAll();
    }
  }
}
