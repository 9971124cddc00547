/** ThreadPool and WorkQueueVal (common/WorkQueue.cc, common/WorkQueue.h): workers take items from
    a fixed set of queues, producers add them, callers pause and drain the pool. A step is what one
    thread does while it has the pool's lock or a queue's lock. */
module WorkQueues {
  import opened Basics

  type Worker = nat
  type Caller = nat
  type Item = nat

  /** A WorkQueueVal; `queued` is the list of GenContextWQ. The last three are history: what workers have
      in hand, what was finished, and all that was ever queued. */
  datatype Queue = Queue(queued: seq<Item>, toProcess: seq<Item>, toFinish: seq<Item>,
                         inProcess: multiset<Item>, finished: seq<Item>, all: multiset<Item>)

  datatype Phase =
    | Idle
    | Dequeued(q: nat)              // in _void_process, has not yet taken an item
    | Processing(q: nat, u: Item)   // in _process(u), without any lock
    | Processed(q: nat)             // about to take the pool's lock again

  datatype CallPhase =
    | Out
    | Pausing(woken: bool)                     // in pause(), waiting
    | Paused                                   // pause() has returned
    | PausedNew                                // pause_new() has returned
    | Draining(wq: Option<nat>, woken: bool)   // in drain(), waiting

  datatype State = State(queues: seq<Queue>, last: nat, pause: nat, draining: nat, processing: nat,
                         workers: map<Worker, Phase>, callers: map<Caller, CallPhase>)
  {
    function PhaseOf(w: Worker): Phase { if w in workers then workers[w] else Idle }

    function CallOf(c: Caller): CallPhase { if c in callers then callers[c] else Out }
  }

  datatype Step =
    | Enqueue(q: nat, u: Item)
    | EnqueueFront(q: nat, u: Item)
    | Scan(w: Worker)
    | TakeItem(w: Worker)
    | ItemDone(w: Worker)
    | Finish(w: Worker)
    | Pause(c: Caller)
    | PauseNew(c: Caller)
    | Unpause(c: Caller)
    | Drain(c: Caller, wq: Option<nat>)
    | Wake(c: Caller)

  // ------------------------------------------------------------------
  // The worker's scan

  /** Up to `tries` queues, from the one behind `last`: the first that has an item. */
  function Look(queues: seq<Queue>, last: nat, tries: nat): (r: (Option<nat>, nat))
    requires queues != []
    ensures r.0.Some? ==> r.0.value == r.1 < |queues| && queues[r.1].queued != []
    decreases tries
  {
    if tries == 0 then (None, last)
    else
      var l := (last + 1) % |queues|;
      if queues[l].queued != [] then (Some(l), l) else Look(queues, l, tries - 1)
  }

  /** How many queues the scan passes before it looks at q. */
  function Ahead(n: nat, last: nat, q: nat): int {
    if q > last then q - last - 1 else n + q - last - 1
  }

  lemma After(n: nat, last: nat)
    requires last < n
    ensures (last + 1) % n == if last + 1 == n then 0 else last + 1
  {
  }

  /** A scan of enough queues finds an item if q has one, and each find brings q closer. */
  lemma {:induction false} LookFinds(queues: seq<Queue>, last: nat, tries: nat, q: nat)
    requires last < |queues| && q < |queues| && queues[q].queued != [] && Ahead(|queues|, last, q) < tries
    ensures var (found, l) := Look(queues, last, tries);
            && found == Some(l)
            && (l != q ==> 0 <= Ahead(|queues|, l, q) < Ahead(|queues|, last, q))
    decreases tries
  {
    After(|queues|, last);
    var l := (last + 1) % |queues|;
    if queues[l].queued == [] {
      LookFinds(queues, l, tries - 1, q);
    }
  }

  /** A scan that finds nothing has seen every queue empty and stands where it began. */
  lemma {:induction false} LookFails(queues: seq<Queue>, last: nat, tries: nat)
    requires last < |queues| && tries <= |queues|
    ensures var (found, l) := Look(queues, last, tries);
            && l < |queues|
            && (found == None ==> l == if last + tries < |queues| then last + tries else last + tries - |queues|)
            && (found == None ==> forall q | 0 <= q < |queues| && Ahead(|queues|, last, q) < tries :: queues[q].queued == [])
    decreases tries
  {
    if tries > 0 {
      After(|queues|, last);
      LookFails(queues, (last + 1) % |queues|, tries - 1);
    }
  }

  /** A full round that finds nothing saw every queue empty and ends where it began. */
  lemma FullRound(queues: seq<Queue>, last: nat)
    requires last < |queues|
    ensures var (found, l) := Look(queues, last, |queues|);
            found == None ==> l == last && forall q | 0 <= q < |queues| :: queues[q].queued == []
  {
    LookFails(queues, last, |queues|);
    hide Look;
    assert forall q | 0 <= q < |queues| :: Ahead(|queues|, last, q) < |queues|;
  }

  // ------------------------------------------------------------------
  // Steps

  predicate MayReturn(s: State, call: CallPhase) {
    match call
    case Pausing(_) => s.processing == 0
    case Draining(wq, _) => s.processing == 0 && (wq.Some? && wq.value < |s.queues| ==> s.queues[wq.value].queued == [])
    case _ => false
  }

  /** A step that can happen and whose assertions hold; NoAssertFails shows they always do. */
  predicate Enabled(s: State, step: Step) {
    match step
    case Enqueue(q, _) => q < |s.queues|
    case EnqueueFront(q, _) => q < |s.queues|
    case Scan(w) => s.PhaseOf(w) == Idle
    case TakeItem(w) => var p := s.PhaseOf(w); p.Dequeued? && p.q < |s.queues| && s.queues[p.q].toProcess != []
    case ItemDone(w) => s.PhaseOf(w).Processing? && s.PhaseOf(w).q < |s.queues|
    case Finish(w) =>
      var p := s.PhaseOf(w); p.Processed? && p.q < |s.queues| && s.queues[p.q].toFinish != [] && s.processing > 0
    case Pause(c) => s.CallOf(c) == Out
    case PauseNew(c) => s.CallOf(c) == Out
    case Unpause(c) => (s.CallOf(c) == Paused || s.CallOf(c) == PausedNew) && s.pause > 0
    case Drain(c, wq) => s.CallOf(c) == Out && (wq.Some? ==> wq.value < |s.queues|)
    case Wake(c) => s.CallOf(c).Pausing? || s.CallOf(c).Draining?
  }

  function WithQueue(s: State, q: nat, queue: Queue): State
    requires q < |s.queues|
  {
    s.(queues := s.queues[q := queue])
  }

  function WakeAll(callers: map<Caller, CallPhase>): map<Caller, CallPhase> {
    map c | c in callers ::
      if callers[c].Pausing? || callers[c].Draining? then callers[c].(woken := true) else callers[c]
  }

  /** One pass of pause()'s or drain()'s waiting loop. */
  function GoOn(s: State, c: Caller, call: CallPhase): State {
    if !MayReturn(s, call) then
      s.(callers := s.callers[c := if call.Pausing? then Pausing(false) else if call.Draining? then Draining(call.wq, false) else call])
    else if call.Pausing? then s.(callers := s.callers[c := Paused])
    else s.(callers := s.callers[c := Out], draining := if s.draining > 0 then s.draining - 1 else 0)
  }

  function Next(s: State, step: Step): State
    requires Enabled(s, step)
  {
    match step
    case Enqueue(q, u) =>
      var x := s.queues[q];
      WithQueue(s, q, x.(queued := x.queued + [u], all := x.all + multiset{u}))
    case EnqueueFront(q, u) =>
      var x := s.queues[q];
      WithQueue(s, q, x.(queued := [u] + x.queued, all := x.all + multiset{u}))
    case Scan(w) =>
      if s.pause > 0 || s.queues == [] then s
      else
        var (found, l) := Look(s.queues, s.last, |s.queues|);
        if found == None then s.(last := l)
        else
          var x := s.queues[found.value];
          WithQueue(s, found.value, x.(queued := x.queued[1..], toProcess := x.toProcess + [x.queued[0]]))
          .(last := l, processing := s.processing + 1, workers := s.workers[w := Dequeued(found.value)])
    case TakeItem(w) =>
      var q := s.PhaseOf(w).q;
      var x := s.queues[q];
      WithQueue(s, q, x.(toProcess := x.toProcess[1..], inProcess := x.inProcess + multiset{x.toProcess[0]}))
      .(workers := s.workers[w := Processing(q, x.toProcess[0])])
    case ItemDone(w) =>
      var q, u := s.PhaseOf(w).q, s.PhaseOf(w).u;
      var x := s.queues[q];
      WithQueue(s, q, x.(toFinish := x.toFinish + [u], inProcess := x.inProcess - multiset{u}))
      .(workers := s.workers[w := Processed(q)])
    case Finish(w) =>
      var q := s.PhaseOf(w).q;
      var x := s.queues[q];
      WithQueue(s, q, x.(toFinish := x.toFinish[1..], finished := x.finished + [x.toFinish[0]]))
      .(processing := s.processing - 1, workers := s.workers[w := Idle],
        callers := if s.pause > 0 || s.draining > 0 then WakeAll(s.callers) else s.callers)
    case Pause(c) => GoOn(s.(pause := s.pause + 1), c, Pausing(false))
    case PauseNew(c) => s.(pause := s.pause + 1, callers := s.callers[c := PausedNew])
    case Unpause(c) => s.(pause := s.pause - 1, callers := s.callers[c := Out])
    case Drain(c, wq) => GoOn(s.(draining := s.draining + 1), c, Draining(wq, false))
    case Wake(c) => GoOn(s, c, s.CallOf(c))
  }

  // ------------------------------------------------------------------
  // What every step keeps

  ghost function At(workers: map<Worker, Phase>, p: Phase): set<Worker> {
    set w | w in workers && workers[w] == p
  }

  ghost function Active(workers: map<Worker, Phase>): set<Worker> {
    set w | w in workers && workers[w] != Idle
  }

  /** The two lists of a queue and its items in process match the workers that stand there. */
  ghost predicate QueueMatches(workers: map<Worker, Phase>, q: nat, x: Queue) {
    && |x.toProcess| == |At(workers, Dequeued(q))|
    && |x.toFinish| == |At(workers, Processed(q))|
    && forall u :: x.inProcess[u] == |At(workers, Processing(q, u))|
  }

  ghost predicate WorkersMatch(s: State) {
    && (forall q | 0 <= q < |s.queues| :: QueueMatches(s.workers, q, s.queues[q]))
    && (forall w | w in s.workers && s.workers[w] != Idle :: s.workers[w].q < |s.queues|)
    && s.processing == |Active(s.workers)|
  }

  /** Every item ever queued is in exactly one place. */
  ghost predicate QueueConserves(x: Queue) {
    x.all == multiset(x.queued) + multiset(x.toProcess) + x.inProcess + multiset(x.toFinish) + multiset(x.finished)
  }

  ghost predicate Conserves(s: State) {
    forall q | 0 <= q < |s.queues| :: QueueConserves(s.queues[q])
  }

  ghost function Holding(callers: map<Caller, CallPhase>): set<Caller> {
    set c | c in callers && (callers[c].Pausing? || callers[c] == Paused || callers[c] == PausedNew)
  }

  ghost function DrainingSet(callers: map<Caller, CallPhase>): set<Caller> {
    set c | c in callers && callers[c].Draining?
  }

  ghost predicate CallersMatch(s: State) {
    && s.pause == |Holding(s.callers)|
    && s.draining == |DrainingSet(s.callers)|
    && (forall c | c in s.callers && s.callers[c].Draining? && s.callers[c].wq.Some? :: s.callers[c].wq.value < |s.queues|)
  }

  /** After pause() has returned, and until the matching unpause(), no item is in hand. */
  ghost predicate PausedIsQuiet(s: State) {
    forall c | c in s.callers && s.callers[c] == Paused :: s.processing == 0
  }

  /** A caller that sleeps unsignalled still has to wait. */
  ghost predicate NoLostWakeup(s: State) {
    forall c | c in s.callers && (s.callers[c].Pausing? || s.callers[c].Draining?) && !s.callers[c].woken ::
      !MayReturn(s, s.callers[c])
  }

  ghost predicate Inv(s: State) {
    && WorkersMatch(s)
    && Conserves(s)
    && CallersMatch(s)
    && PausedIsQuiet(s)
    && NoLostWakeup(s)
    && (s.queues != [] ==> s.last < |s.queues|)
  }

  lemma Moved(workers: map<Worker, Phase>, w: Worker, p: Phase, x: Phase)
    ensures At(workers[w := p], x) == if x == p then At(workers, x) + {w} else At(workers, x) - {w}
  {
  }

  lemma MovedActive(workers: map<Worker, Phase>, w: Worker, p: Phase)
    ensures Active(workers[w := p]) == if p != Idle then Active(workers) + {w} else Active(workers) - {w}
  {
  }

  lemma MovedCount(workers: map<Worker, Phase>, w: Worker, p: Phase, x: Phase)
    ensures |At(workers[w := p], x)| == |At(workers, x)| + (if x == p then 1 else 0)
                                      - (if w in workers && workers[w] == x then 1 else 0)
  {
    Moved(workers, w, p, x);
    if x == p && w in workers && workers[w] == x {
      assert At(workers, x) + {w} == At(workers, x);
    } else if x != p && !(w in workers && workers[w] == x) {
      assert At(workers, x) - {w} == At(workers, x);
    }
  }

  lemma MovedActiveCount(workers: map<Worker, Phase>, w: Worker, p: Phase)
    ensures |Active(workers[w := p])| == |Active(workers)| + (if p != Idle then 1 else 0)
                                       - (if w in workers && workers[w] != Idle then 1 else 0)
  {
    MovedActive(workers, w, p);
    if p != Idle && w in workers && workers[w] != Idle {
      assert Active(workers) + {w} == Active(workers);
    } else if p == Idle && !(w in workers && workers[w] != Idle) {
      assert Active(workers) - {w} == Active(workers);
    }
  }

  /** A queue no moving worker is concerned with. */
  lemma OtherQueue(workers: map<Worker, Phase>, w: Worker, p: Phase, q: nat, x: Queue)
    requires QueueMatches(workers, q, x)
    requires p == Idle || p.q != q
    requires w in workers ==> workers[w] == Idle || workers[w].q != q
    ensures QueueMatches(workers[w := p], q, x)
  {
    hide At;
    MovedCount(workers, w, p, Dequeued(q));
    MovedCount(workers, w, p, Processed(q));
    forall u ensures x.inProcess[u] == |At(workers[w := p], Processing(q, u))| {
      MovedCount(workers, w, p, Processing(q, u));
    }
  }

  /** A worker moves from one place of queue q to the next and takes its item along. */
  lemma SameQueue(workers: map<Worker, Phase>, w: Worker, from: Phase, p: Phase, q: nat, x: Queue, x': Queue)
    requires QueueMatches(workers, q, x) && (p == Idle || p.q == q)
    requires from == (if w in workers then workers[w] else Idle) && (from == Idle || from.q == q)
    requires Takes(from, p, x, x')
    ensures QueueMatches(workers[w := p], q, x')
  {
    hide At;
    MovedCount(workers, w, p, Dequeued(q));
    MovedCount(workers, w, p, Processed(q));
    forall u ensures x'.inProcess[u] == |At(workers[w := p], Processing(q, u))| {
      MovedCount(workers, w, p, Processing(q, u));
      var a := x'.inProcess + InHand(from);
      assert a[u] == x.inProcess[u] + if p == Processing(q, u) then 1 else 0;
    }
  }

  function InHand(p: Phase): multiset<Item> {
    if p.Processing? then multiset{p.u} else multiset{}
  }

  /** Queue x became x' when a worker went from one phase to another. */
  predicate Takes(from: Phase, p: Phase, x: Queue, x': Queue) {
    && |x'.toProcess| + (if from.Dequeued? then 1 else 0) == |x.toProcess| + (if p.Dequeued? then 1 else 0)
    && |x'.toFinish| + (if from.Processed? then 1 else 0) == |x.toFinish| + (if p.Processed? then 1 else 0)
    && x'.inProcess + InHand(from) == x.inProcess + InHand(p)
  }

  lemma MoveKeeps(s: State, s': State, w: Worker, p: Phase, q: nat, x': Queue)
    requires WorkersMatch(s) && q < |s.queues| && s'.queues == s.queues[q := x'] && s'.workers == s.workers[w := p]
    requires (p == Idle || p.q == q) && (s.PhaseOf(w) == Idle || s.PhaseOf(w).q == q)
    requires Takes(s.PhaseOf(w), p, s.queues[q], x')
    requires s'.processing + (if s.PhaseOf(w) != Idle then 1 else 0) == s.processing + (if p != Idle then 1 else 0)
    ensures WorkersMatch(s')
  {
    hide QueueMatches, Active, Takes;
    forall k | 0 <= k < |s'.queues| ensures QueueMatches(s'.workers, k, s'.queues[k]) {
      assert QueueMatches(s.workers, k, s.queues[k]);
      if k == q {
        SameQueue(s.workers, w, s.PhaseOf(w), p, q, s.queues[q], x');
      } else {
        OtherQueue(s.workers, w, p, k, s.queues[k]);
      }
    }
    MovedActiveCount(s.workers, w, p);
  }

  /** Replacing one queue by one that holds the same items keeps them all. */
  lemma ConserveKeeps(s: State, s': State, q: nat, x': Queue)
    requires Conserves(s) && q < |s.queues| && s'.queues == s.queues[q := x'] && QueueConserves(x')
    ensures Conserves(s')
  {
  }

  lemma FirstOf(l: seq<Item>)
    requires l != []
    ensures multiset(l) == multiset{l[0]} + multiset(l[1..])
  {
    assert l == [l[0]] + l[1..];
  }

  /** Changes that callers do not see: no call may return that could not before. */
  lemma CallersKeep(s: State, s': State)
    requires CallersMatch(s) && NoLostWakeup(s) && s'.callers == s.callers
    requires s'.pause == s.pause && s'.draining == s.draining && StillBusy(s, s')
    ensures CallersMatch(s') && NoLostWakeup(s')
  {
  }

  /** Work goes on: nothing that callers wait for has happened. */
  predicate StillBusy(s: State, s': State) {
    && |s'.queues| == |s.queues|
    && (s'.processing == 0 ==> s.processing == 0)
    && forall q | 0 <= q < |s.queues| :: s'.processing > 0 || (s'.queues[q].queued == [] ==> s.queues[q].queued == [])
  }

  lemma Added(x: Queue, u: Item, front: bool)
    requires QueueConserves(x)
    ensures QueueConserves(x.(queued := if front then [u] + x.queued else x.queued + [u], all := x.all + multiset{u}))
  {
  }

  lemma KeepsEnqueue(s: State, q: nat, u: Item, front: bool)
    requires Inv(s) && q < |s.queues|
    ensures Inv(Next(s, if front then EnqueueFront(q, u) else Enqueue(q, u)))
  {
    hide WorkersMatch, Conserves, CallersMatch, NoLostWakeup, QueueConserves;
    var s' := Next(s, if front then EnqueueFront(q, u) else Enqueue(q, u));
    ConservesAt(s, q);
    Added(s.queues[q], u, front);
    ConserveKeeps(s, s', q, s'.queues[q]);
    StayKeeps(s, s', q);
    CallersKeep(s, s');
  }

  lemma ConservesAt(s: State, q: nat)
    requires Conserves(s) && q < |s.queues|
    ensures QueueConserves(s.queues[q])
  {
  }

  lemma StayKeeps(s: State, s': State, q: nat)
    requires WorkersMatch(s) && q < |s.queues| && |s'.queues| == |s.queues| && s'.workers == s.workers
    requires s'.queues == s.queues[q := s'.queues[q]] && s'.processing == s.processing
    requires s'.queues[q].toProcess == s.queues[q].toProcess && s'.queues[q].toFinish == s.queues[q].toFinish
    requires s'.queues[q].inProcess == s.queues[q].inProcess
    ensures WorkersMatch(s')
  {
  }

  /** A worker that finds an item takes it; nobody has returned from pause() then. */
  lemma KeepsScan(s: State, w: Worker)
    requires Inv(s) && Enabled(s, Scan(w))
    ensures Inv(Next(s, Scan(w)))
  {
    hide WorkersMatch, Conserves, CallersMatch, NoLostWakeup, Look;
    if s.pause > 0 || s.queues == [] {
      return;
    }
    LookFails(s.queues, s.last, |s.queues|);
    var s', l := Next(s, Scan(w)), Look(s.queues, s.last, |s.queues|);
    if l.0 == None {
      LastKeeps(s, s');
    } else {
      KeepsDequeue(s, s', w, l.1);
    }
  }

  lemma KeepsDequeue(s: State, s': State, w: Worker, q: nat)
    requires Inv(s) && s.PhaseOf(w) == Idle && s.pause == 0 && q < |s.queues| && s.queues[q].queued != []
    requires var x := s.queues[q];
             s' == s.(queues := s.queues[q := x.(queued := x.queued[1..], toProcess := x.toProcess + [x.queued[0]])],
                      last := q, processing := s.processing + 1, workers := s.workers[w := Dequeued(q)])
    ensures Inv(s')
  {
    hide WorkersMatch, Conserves, CallersMatch, NoLostWakeup;
    ConservesAt(s, q);
    FirstOf(s.queues[q].queued);
    ConserveKeeps(s, s', q, s'.queues[q]);
    MoveKeeps(s, s', w, Dequeued(q), q, s'.queues[q]);
    CallersKeep(s, s');
    NobodyPaused(s);
  }

  lemma LastKeeps(s: State, s': State)
    requires WorkersMatch(s) && Conserves(s) && CallersMatch(s) && NoLostWakeup(s) && s' == s.(last := s'.last)
    ensures WorkersMatch(s') && Conserves(s') && CallersMatch(s') && NoLostWakeup(s')
  {
  }

  lemma NobodyPaused(s: State)
    requires CallersMatch(s) && s.pause == 0
    ensures forall c | c in s.callers :: s.callers[c] != Paused
  {
    assert forall c | c in s.callers && s.callers[c] == Paused :: c in Holding(s.callers);
  }

  lemma InHandNow(x: Queue)
    requires QueueConserves(x) && x.toProcess != []
    ensures QueueConserves(x.(toProcess := x.toProcess[1..], inProcess := x.inProcess + multiset{x.toProcess[0]}))
  {
    FirstOf(x.toProcess);
  }

  lemma KeepsTakeItem(s: State, w: Worker)
    requires Inv(s) && Enabled(s, TakeItem(w))
    ensures Inv(Next(s, TakeItem(w)))
  {
    hide WorkersMatch, Conserves, CallersMatch, NoLostWakeup, QueueConserves;
    var s', q := Next(s, TakeItem(w)), s.PhaseOf(w).q;
    ConservesAt(s, q);
    InHandNow(s.queues[q]);
    ConserveKeeps(s, s', q, s'.queues[q]);
    MoveKeeps(s, s', w, s'.PhaseOf(w), q, s'.queues[q]);
    CallersKeep(s, s');
  }

  lemma HasInHand(s: State, w: Worker)
    requires WorkersMatch(s) && s.PhaseOf(w).Processing? && s.PhaseOf(w).q < |s.queues|
    ensures s.PhaseOf(w).u in s.queues[s.PhaseOf(w).q].inProcess
  {
    var p := s.PhaseOf(w);
    assert QueueMatches(s.workers, p.q, s.queues[p.q]);
    assert w in At(s.workers, Processing(p.q, p.u));
  }

  lemma KeepsItemDone(s: State, w: Worker)
    requires Inv(s) && Enabled(s, ItemDone(w))
    ensures Inv(Next(s, ItemDone(w)))
  {
    hide WorkersMatch, Conserves, CallersMatch, NoLostWakeup, QueueConserves;
    var s', q := Next(s, ItemDone(w)), s.PhaseOf(w).q;
    HasInHand(s, w);
    ConservesAt(s, q);
    HandedBack(s.queues[q], s.PhaseOf(w).u);
    ConserveKeeps(s, s', q, s'.queues[q]);
    MoveKeeps(s, s', w, s'.PhaseOf(w), q, s'.queues[q]);
    CallersKeep(s, s');
  }

  lemma HandedBack(x: Queue, u: Item)
    requires QueueConserves(x) && u in x.inProcess
    ensures var x' := x.(toFinish := x.toFinish + [u], inProcess := x.inProcess - multiset{u});
            QueueConserves(x') && x'.inProcess + multiset{u} == x.inProcess
  {
  }

  lemma FinishedNow(x: Queue)
    requires QueueConserves(x) && x.toFinish != []
    ensures QueueConserves(x.(toFinish := x.toFinish[1..], finished := x.finished + [x.toFinish[0]]))
  {
    FirstOf(x.toFinish);
  }

  lemma KeepsFinish(s: State, w: Worker)
    requires Inv(s) && Enabled(s, Finish(w))
    ensures Inv(Next(s, Finish(w)))
  {
    hide WorkersMatch, Conserves, CallersMatch, NoLostWakeup, WakeAll, QueueConserves;
    var s', q := Next(s, Finish(w)), s.PhaseOf(w).q;
    WakesCallers(s, s');
    ConservesAt(s, q);
    FinishedNow(s.queues[q]);
    ConserveKeeps(s, s', q, s'.queues[q]);
    MoveKeeps(s, s', w, Idle, q, s'.queues[q]);
  }

  /** Finishing an item wakes every caller there is. */
  lemma WakesCallers(s: State, s': State)
    requires CallersMatch(s) && PausedIsQuiet(s) && s.processing > 0
    requires s'.pause == s.pause && s'.draining == s.draining && |s'.queues| == |s.queues|
    requires s'.callers == if s.pause > 0 || s.draining > 0 then WakeAll(s.callers) else s.callers
    ensures CallersMatch(s') && PausedIsQuiet(s') && NoLostWakeup(s')
  {
    assert Holding(s'.callers) == Holding(s.callers);
    assert DrainingSet(s'.callers) == DrainingSet(s.callers);
    forall c | c in s'.callers && (s'.callers[c].Pausing? || s'.callers[c].Draining?) ensures s'.callers[c].woken {
      assert c in Holding(s.callers) || c in DrainingSet(s.callers);
    }
  }

  ghost predicate Holds(p: CallPhase) {
    p.Pausing? || p == Paused || p == PausedNew
  }

  lemma CallCounts(callers: map<Caller, CallPhase>, c: Caller, p: CallPhase)
    ensures |Holding(callers[c := p])| == |Holding(callers)| + (if Holds(p) then 1 else 0)
                                        - (if c in callers && Holds(callers[c]) then 1 else 0)
    ensures |DrainingSet(callers[c := p])| == |DrainingSet(callers)| + (if p.Draining? then 1 else 0)
                                            - (if c in callers && callers[c].Draining? then 1 else 0)
  {
    var after := callers[c := p];
    SetCount(Holding(callers), Holding(after), c);
    SetCount(DrainingSet(callers), DrainingSet(after), c);
  }

  lemma SetCount(a: set<Caller>, b: set<Caller>, c: Caller)
    requires a - {c} == b - {c}
    ensures |b| == |a| + (if c in b then 1 else 0) - (if c in a then 1 else 0)
  {
    assert c in a ==> a == (a - {c}) + {c};
    assert c !in a ==> a == a - {c};
    assert c in b ==> b == (b - {c}) + {c};
    assert c !in b ==> b == b - {c};
  }

  /** Callers come, go and sleep; workers and items do not notice. */
  lemma CallKeeps(s: State, s': State, c: Caller, p: CallPhase)
    requires Inv(s) && s' == s.(pause := s'.pause, draining := s'.draining, callers := s.callers[c := p])
    requires s'.pause + (if Holds(s.CallOf(c)) then 1 else 0) == s.pause + (if Holds(p) then 1 else 0)
    requires s'.draining + (if s.CallOf(c).Draining? then 1 else 0) == s.draining + (if p.Draining? then 1 else 0)
    requires p.Draining? && p.wq.Some? ==> p.wq.value < |s.queues|
    requires p == Paused ==> s.processing == 0
    requires (p.Pausing? || p.Draining?) && !p.woken ==> !MayReturn(s, p)
    ensures Inv(s')
  {
    CallCounts(s.callers, c, p);
    hide QueueMatches, QueueConserves, Active, Holding, DrainingSet;
  }

  lemma DrainerCounted(s: State, c: Caller)
    requires CallersMatch(s) && s.CallOf(c).Draining?
    ensures s.draining > 0 && (s.CallOf(c).wq.Some? ==> s.CallOf(c).wq.value < |s.queues|)
  {
    assert c in DrainingSet(s.callers);
  }

  lemma KeepsCall(s: State, step: Step)
    requires Inv(s) && Enabled(s, step)
    requires step.Pause? || step.PauseNew? || step.Unpause? || step.Drain? || step.Wake?
    ensures Inv(Next(s, step))
  {
    if step.Wake? && s.CallOf(step.c).Draining? {
      DrainerCounted(s, step.c);
    }
    hide Inv;
    var s' := Next(s, step);
    CallKeeps(s, s', step.c, s'.CallOf(step.c));
  }

  lemma Keeps(s: State, step: Step)
    requires Inv(s) && Enabled(s, step)
    ensures Inv(Next(s, step))
  {
    hide Inv, Next, Enabled;
    match step {
      case Enqueue(q, u) => EnqueueInRange(s, step, q); KeepsEnqueue(s, q, u, false);
      case EnqueueFront(q, u) => EnqueueInRange(s, step, q); KeepsEnqueue(s, q, u, true);
      case Scan(w) => KeepsScan(s, w);
      case TakeItem(w) => KeepsTakeItem(s, w);
      case ItemDone(w) => KeepsItemDone(s, w);
      case Finish(w) => KeepsFinish(s, w);
      case Pause(_) => KeepsCall(s, step);
      case PauseNew(_) => KeepsCall(s, step);
      case Unpause(_) => KeepsCall(s, step);
      case Drain(_, _) => KeepsCall(s, step);
      case Wake(_) => KeepsCall(s, step);
    }
  }

  lemma EnqueueInRange(s: State, step: Step, q: nat)
    requires Enabled(s, step) && (step.Enqueue? || step.EnqueueFront?) && step.q == q
    ensures q < |s.queues|
  {
  }

  /** The assertions in _void_process, _void_process_finish and unpause never fail. */
  lemma NoAssertFails(s: State, w: Worker, c: Caller)
    requires Inv(s)
    ensures s.PhaseOf(w).Dequeued? ==> Enabled(s, TakeItem(w))
    ensures s.PhaseOf(w).Processed? ==> Enabled(s, Finish(w))
    ensures s.CallOf(c) == Paused || s.CallOf(c) == PausedNew ==> Enabled(s, Unpause(c))
  {
    var p := s.PhaseOf(w);
    if p != Idle {
      assert QueueMatches(s.workers, p.q, s.queues[p.q]);
      assert w in At(s.workers, p) && w in Active(s.workers);
    }
    if s.CallOf(c) == Paused || s.CallOf(c) == PausedNew {
      assert c in Holding(s.callers);
    }
  }

  // ------------------------------------------------------------------
  // Whole runs

  const EMPTY: Queue := Queue([], [], [], multiset{}, [], multiset{})

  function Fresh(n: nat): State {
    State(seq(n, i => EMPTY), 0, 0, 0, 0, map[], map[])
  }

  ghost predicate Run(states: seq<State>, steps: seq<Step>) {
    && |states| == |steps| + 1
    && (exists n: nat :: states[0] == Fresh(n))
    && forall i | 0 <= i < |steps| :: Enabled(states[i], steps[i]) && states[i + 1] == Next(states[i], steps[i])
  }

  lemma {:induction false} RunKeeps(states: seq<State>, steps: seq<Step>, k: nat)
    requires Run(states, steps) && k < |states|
    ensures Inv(states[k])
  {
    if k > 0 {
      RunKeeps(states, steps, k - 1);
      Keeps(states[k - 1], steps[k - 1]);
    } else {
      var n :| states[0] == Fresh(n);
      FreshOk(n);
    }
  }

  lemma FreshOk(n: nat)
    ensures Inv(Fresh(n))
  {
  }

  /** From the return of pause() to the matching unpause(), no worker has an item. */
  lemma PausedMeansIdle(states: seq<State>, steps: seq<Step>, k: nat, c: Caller, w: Worker)
    requires Run(states, steps) && k < |states| && states[k].CallOf(c) == Paused
    ensures states[k].PhaseOf(w) == Idle
  {
    RunKeeps(states, steps, k);
    assert states[k].processing == 0;
    assert Active(states[k].workers) == {};
    assert w in states[k].workers && states[k].workers[w] != Idle <==> w in Active(states[k].workers);
  }

  // ------------------------------------------------------------------
  // What the steps say

  /** All items that were put into queue q, at either end. */
  function PutIn(steps: seq<Step>, q: nat): multiset<Item> {
    if steps == [] then multiset{}
    else
      var step := steps[|steps| - 1];
      PutIn(steps[..|steps| - 1], q) + if (step.Enqueue? || step.EnqueueFront?) && step.q == q then multiset{step.u} else multiset{}
  }

  /** The item a step appends to queue q. */
  function Appends(step: Step, q: nat): seq<Item> {
    if step.Enqueue? && step.q == q then [step.u] else []
  }

  /** The item that leaves queue q with a step: the worker has dequeued there, and it is the last that
      was put on to_process. */
  function Leaves(step: Step, s': State, q: nat): seq<Item> {
    if step.Scan? && q < |s'.queues| && s'.PhaseOf(step.w) == Dequeued(q) && s'.queues[q].toProcess != []
    then s'.queues[q].toProcess[|s'.queues[q].toProcess| - 1..] else []
  }

  /** The item of queue q a worker is given to process with a step, and the one it hands back. */
  function GivenTo(step: Step, s': State, q: nat): seq<Item> {
    if step.TakeItem? && s'.PhaseOf(step.w).Processing? && s'.PhaseOf(step.w).q == q then [s'.PhaseOf(step.w).u] else []
  }

  function GivenBack(s: State, step: Step, q: nat): seq<Item> {
    if step.ItemDone? && s.PhaseOf(step.w).Processing? && s.PhaseOf(step.w).q == q then [s.PhaseOf(step.w).u] else []
  }

  ghost function Appended(steps: seq<Step>, q: nat, i: nat, j: nat): seq<Item>
    requires i <= j <= |steps|
  {
    if i == j then [] else Appended(steps, q, i, j - 1) + Appends(steps[j - 1], q)
  }

  ghost function Left(states: seq<State>, steps: seq<Step>, q: nat, i: nat, j: nat): seq<Item>
    requires i <= j <= |steps| < |states|
  {
    if i == j then [] else Left(states, steps, q, i, j - 1) + Leaves(steps[j - 1], states[j], q)
  }

  ghost function Taken(states: seq<State>, steps: seq<Step>, q: nat, k: nat): seq<Item>
    requires k <= |steps| < |states|
  {
    if k == 0 then [] else Taken(states, steps, q, k - 1) + GivenTo(steps[k - 1], states[k], q)
  }

  ghost function Returned(states: seq<State>, steps: seq<Step>, q: nat, k: nat): seq<Item>
    requires k <= |steps| < |states|
  {
    if k == 0 then [] else Returned(states, steps, q, k - 1) + GivenBack(states[k - 1], steps[k - 1], q)
  }

  /** What one step does to the lists of a queue. */
  ghost predicate Passes(s: State, step: Step, s': State, q: nat)
    requires q < |s.queues| && q < |s'.queues|
  {
    var x, x' := s.queues[q], s'.queues[q];
    && x'.all == x.all + (if (step.Enqueue? || step.EnqueueFront?) && step.q == q then multiset{step.u} else multiset{})
    && (if step.EnqueueFront? && step.q == q then x'.queued == [step.u] + x.queued
        else x.queued + Appends(step, q) == Leaves(step, s', q) + x'.queued)
    && x.toProcess + Leaves(step, s', q) == GivenTo(step, s', q) + x'.toProcess
    && x.finished + x.toFinish + GivenBack(s, step, q) == x'.finished + x'.toFinish
  }

  /** Steps after which queue q is as it was, and no item of it has moved. */
  lemma PassesUntouched(s: State, step: Step, s': State, q: nat)
    requires q < |s.queues| && q < |s'.queues| && s'.queues[q] == s.queues[q]
    requires !((step.Enqueue? || step.EnqueueFront?) && step.q == q)
    requires Leaves(step, s', q) == [] && GivenTo(step, s', q) == [] && GivenBack(s, step, q) == []
    ensures Passes(s, step, s', q)
  {
    var x := s.queues[q];
    NothingMore(x.queued);
    NothingMore(x.toProcess);
    NothingMore(x.finished + x.toFinish);
  }

  lemma StepOnQueue(s: State, step: Step, q: nat)
    requires Inv(s) && Enabled(s, step) && q < |s.queues|
    ensures |Next(s, step).queues| == |s.queues| && Passes(s, step, Next(s, step), q)
  {
    hide Inv, Next, Passes, Enabled;
    match step {
      case Enqueue(_, _) => AddOnQueue(s, step, q);
      case EnqueueFront(_, _) => AddOnQueue(s, step, q);
      case Scan(w) => ScanOnQueue(s, w, q);
      case TakeItem(w) => TakeOnQueue(s, w, q);
      case ItemDone(w) => DoneOnQueue(s, w, q);
      case Finish(w) => FinishOnQueue(s, w, q);
      case _ => CallOnQueue(s, step, q);
    }
  }

  lemma AddOnQueue(s: State, step: Step, q: nat)
    requires Enabled(s, step) && q < |s.queues| && (step.Enqueue? || step.EnqueueFront?)
    ensures |Next(s, step).queues| == |s.queues| && Passes(s, step, Next(s, step), q)
  {
    hide Look, GoOn, WakeAll, Passes;
    if step.q != q {
      PassesUntouched(s, step, Next(s, step), q);
    } else {
      AddedPasses(s, step, Next(s, step), q);
    }
  }

  lemma AddedPasses(s: State, step: Step, s': State, q: nat)
    requires (step.Enqueue? || step.EnqueueFront?) && step.q == q < |s.queues| == |s'.queues|
    requires s'.queues[q] == s.queues[q].(queued := s'.queues[q].queued, all := s.queues[q].all + multiset{step.u})
    requires s'.queues[q].queued == if step.Enqueue? then s.queues[q].queued + [step.u] else [step.u] + s.queues[q].queued
    ensures Passes(s, step, s', q)
  {
    NothingMore(s'.queues[q].queued);
    NothingMore(s.queues[q].toProcess);
    NothingMore(s.queues[q].finished + s.queues[q].toFinish);
  }

  lemma ScanOnQueue(s: State, w: Worker, q: nat)
    requires Enabled(s, Scan(w)) && q < |s.queues|
    ensures |Next(s, Scan(w)).queues| == |s.queues| && Passes(s, Scan(w), Next(s, Scan(w)), q)
  {
    hide Look, Passes;
    var s', x := Next(s, Scan(w)), s.queues[q];
    if s'.PhaseOf(w) != Dequeued(q) {
      PassesUntouched(s, Scan(w), s', q);
    } else {
      DequeuedPasses(s, w, s', q);
    }
  }

  lemma DequeuedPasses(s: State, w: Worker, s': State, q: nat)
    requires q < |s.queues| == |s'.queues| && s'.PhaseOf(w) == Dequeued(q) && s.queues[q].queued != []
    requires var x := s.queues[q];
             s'.queues[q] == x.(queued := x.queued[1..], toProcess := x.toProcess + [x.queued[0]])
    ensures Passes(s, Scan(w), s', q)
  {
    var x, x' := s.queues[q], s'.queues[q];
    assert x'.toProcess[|x'.toProcess| - 1..] == [x.queued[0]];
    NothingMore(x.queued);
    NothingMore(x'.toProcess);
    NothingMore(x.finished + x.toFinish);
  }

  lemma TakeOnQueue(s: State, w: Worker, q: nat)
    requires Enabled(s, TakeItem(w)) && q < |s.queues|
    ensures |Next(s, TakeItem(w)).queues| == |s.queues| && Passes(s, TakeItem(w), Next(s, TakeItem(w)), q)
  {
    hide Look, Passes;
    if s.PhaseOf(w).q != q {
      PassesUntouched(s, TakeItem(w), Next(s, TakeItem(w)), q);
    } else {
      TakenPasses(s, w, Next(s, TakeItem(w)), q);
    }
  }

  lemma TakenPasses(s: State, w: Worker, s': State, q: nat)
    requires q < |s.queues| == |s'.queues| && s.queues[q].toProcess != []
    requires s'.PhaseOf(w) == Processing(q, s.queues[q].toProcess[0])
    requires s'.queues[q] == s.queues[q].(toProcess := s.queues[q].toProcess[1..], inProcess := s'.queues[q].inProcess)
    ensures Passes(s, TakeItem(w), s', q)
  {
    var x := s.queues[q];
    NothingMore(x.queued);
    NothingMore(x.toProcess);
    NothingMore(x.finished + x.toFinish);
  }

  lemma DoneOnQueue(s: State, w: Worker, q: nat)
    requires Enabled(s, ItemDone(w)) && q < |s.queues|
    ensures |Next(s, ItemDone(w)).queues| == |s.queues| && Passes(s, ItemDone(w), Next(s, ItemDone(w)), q)
  {
    hide Look, Passes;
    if s.PhaseOf(w).q != q {
      PassesUntouched(s, ItemDone(w), Next(s, ItemDone(w)), q);
    } else {
      DonePasses(s, w, Next(s, ItemDone(w)), q);
    }
  }

  lemma DonePasses(s: State, w: Worker, s': State, q: nat)
    requires q < |s.queues| == |s'.queues| && s.PhaseOf(w).Processing? && s.PhaseOf(w).q == q
    requires s'.queues[q] == s.queues[q].(toFinish := s.queues[q].toFinish + [s.PhaseOf(w).u], inProcess := s'.queues[q].inProcess)
    ensures Passes(s, ItemDone(w), s', q)
  {
    var x := s.queues[q];
    NothingMore(x.queued);
    NothingMore(x.toProcess);
    ConcatAssoc(x.finished, x.toFinish, [s.PhaseOf(w).u]);
  }

  lemma FinishOnQueue(s: State, w: Worker, q: nat)
    requires Enabled(s, Finish(w)) && q < |s.queues|
    ensures |Next(s, Finish(w)).queues| == |s.queues| && Passes(s, Finish(w), Next(s, Finish(w)), q)
  {
    hide Look, Passes, WakeAll;
    if s.PhaseOf(w).q != q {
      PassesUntouched(s, Finish(w), Next(s, Finish(w)), q);
    } else {
      FinishedPasses(s, w, Next(s, Finish(w)), q);
    }
  }

  lemma FinishedPasses(s: State, w: Worker, s': State, q: nat)
    requires q < |s.queues| == |s'.queues| && s.queues[q].toFinish != []
    requires var x := s.queues[q];
             s'.queues[q] == x.(toFinish := x.toFinish[1..], finished := x.finished + [x.toFinish[0]])
    ensures Passes(s, Finish(w), s', q)
  {
    var x := s.queues[q];
    NothingMore(x.queued);
    NothingMore(x.toProcess);
    NothingMore(x.finished + x.toFinish);
    ConcatAssoc(x.finished, [x.toFinish[0]], x.toFinish[1..]);
  }

  lemma CallOnQueue(s: State, step: Step, q: nat)
    requires Enabled(s, step) && q < |s.queues| && (step.Pause? || step.PauseNew? || step.Unpause? || step.Drain? || step.Wake?)
    ensures |Next(s, step).queues| == |s.queues| && Passes(s, step, Next(s, step), q)
  {
    hide Look, Passes, WakeAll, MayReturn;
    PassesUntouched(s, step, Next(s, step), q);
  }

  lemma {:induction false} SameQueues(states: seq<State>, steps: seq<Step>, k: nat)
    requires Run(states, steps) && k <= |steps|
    ensures |states[k].queues| == |states[0].queues|
  {
    hide Inv, Next, Enabled;
    if k > 0 {
      SameQueues(states, steps, k - 1);
      RunKeeps(states, steps, k - 1);
      if |states[0].queues| > 0 {
        StepOnQueue(states[k - 1], steps[k - 1], 0);
      } else {
        NoQueues(states[k - 1], steps[k - 1]);
      }
    }
  }

  lemma NoQueues(s: State, step: Step)
    requires Enabled(s, step) && s.queues == []
    ensures Next(s, step).queues == []
  {
  }

  lemma QueuesStart(states: seq<State>, steps: seq<Step>, q: nat)
    requires Run(states, steps) && q < |states[0].queues|
    ensures states[0].queues[q] == EMPTY
  {
  }

  /** No item is lost or made up: in every run, the places of a queue together hold exactly the items
      its steps put in. */
  lemma {:induction false} EveryItemIsSomewhere(states: seq<State>, steps: seq<Step>, q: nat, k: nat)
    requires Run(states, steps) && k <= |steps| && q < |states[0].queues|
    ensures q < |states[k].queues|
    ensures var x := states[k].queues[q];
            && x.all == PutIn(steps[..k], q)
            && PutIn(steps[..k], q)
               == multiset(x.queued) + multiset(x.toProcess) + x.inProcess + multiset(x.toFinish) + multiset(x.finished)
  {
    hide Next, Enabled;
    SameQueues(states, steps, k);
    RunKeeps(states, steps, k);
    QueuesStart(states, steps, q);
    if k > 0 {
      EveryItemIsSomewhere(states, steps, q, k - 1);
      RunKeeps(states, steps, k - 1);
      StepOnQueue(states[k - 1], steps[k - 1], q);
      assert steps[..k][..k - 1] == steps[..k - 1];
    }
    assert QueueConserves(states[k].queues[q]);
  }

  /** First in, first out: as long as nothing is put in front, what leaves a queue, and then what is still
      in it, is what it held and what was appended, in order. */
  lemma {:induction false} FirstInFirstOut(states: seq<State>, steps: seq<Step>, q: nat, i: nat, j: nat)
    requires Run(states, steps) && i <= j <= |steps| && q < |states[0].queues|
    requires forall k | i <= k < j :: !(steps[k].EnqueueFront? && steps[k].q == q)
    ensures q < |states[i].queues| && q < |states[j].queues|
    ensures states[i].queues[q].queued + Appended(steps, q, i, j) == Left(states, steps, q, i, j) + states[j].queues[q].queued
    decreases j
  {
    hide Inv, Next, Enabled, Appends, Leaves;
    SameQueues(states, steps, i);
    SameQueues(states, steps, j);
    if i == j {
      NothingMore(states[i].queues[q].queued);
    } else {
      FirstInFirstOut(states, steps, q, i, j - 1);
      RunKeeps(states, steps, j - 1);
      StepOnQueue(states[j - 1], steps[j - 1], q);
      Chain(states[i].queues[q].queued, Appended(steps, q, i, j - 1), Appends(steps[j - 1], q),
            Left(states, steps, q, i, j - 1), states[j - 1].queues[q].queued, Leaves(steps[j - 1], states[j], q),
            states[j].queues[q].queued);
    }
  }

  lemma NothingMore(s: seq<Item>)
    ensures s + [] == s && [] + s == s
  {
  }

  lemma Chain(x: seq<Item>, a: seq<Item>, b: seq<Item>, l: seq<Item>, y: seq<Item>, m: seq<Item>, z: seq<Item>)
    requires x + a == l + y && y + b == m + z
    ensures x + (a + b) == (l + m) + z
  {
    ConcatAssoc(x, a, b);
    ConcatAssoc(l, y, b);
    ConcatAssoc(l, m, z);
  }

  /** What is put in front leaves before all that the queue held then. */
  lemma FrontGoesFirst(states: seq<State>, steps: seq<Step>, q: nat, i: nat, j: nat)
    requires Run(states, steps) && i < j <= |steps| && q < |states[0].queues| && steps[i].EnqueueFront? && steps[i].q == q
    requires forall k | i < k < j :: !(steps[k].EnqueueFront? && steps[k].q == q)
    ensures q < |states[i].queues| && q < |states[j].queues|
    ensures [steps[i].u] + states[i].queues[q].queued + Appended(steps, q, i + 1, j)
         == Left(states, steps, q, i + 1, j) + states[j].queues[q].queued
  {
    hide Inv, Next, Enabled, Leaves;
    SameQueues(states, steps, i);
    RunKeeps(states, steps, i);
    StepOnQueue(states[i], steps[i], q);
    FirstInFirstOut(states, steps, q, i + 1, j);
  }

  /** Workers are given the items in the order in which these left the queue, whoever dequeued them, and
      items are finished in the order in which they were handed back. */
  lemma {:induction false} TakenInOrder(states: seq<State>, steps: seq<Step>, q: nat, k: nat)
    requires Run(states, steps) && k <= |steps| && q < |states[0].queues|
    ensures q < |states[k].queues|
    ensures Taken(states, steps, q, k) + states[k].queues[q].toProcess == Left(states, steps, q, 0, k)
    ensures states[k].queues[q].finished + states[k].queues[q].toFinish == Returned(states, steps, q, k)
  {
    hide Inv, Next, Enabled, Leaves, GivenTo, GivenBack;
    SameQueues(states, steps, k);
    QueuesStart(states, steps, q);
    if k > 0 {
      TakenInOrder(states, steps, q, k - 1);
      RunKeeps(states, steps, k - 1);
      StepOnQueue(states[k - 1], steps[k - 1], q);
      ConcatAssoc(Taken(states, steps, q, k - 1), states[k - 1].queues[q].toProcess, Leaves(steps[k - 1], states[k], q));
      ConcatAssoc(Taken(states, steps, q, k - 1), GivenTo(steps[k - 1], states[k], q), states[k].queues[q].toProcess);
    }
  }

  /** The last step a worker took. */
  function LastMove(steps: seq<Step>, w: Worker): Option<Step> {
    if steps == [] then None
    else
      var step := steps[|steps| - 1];
      if (step.Scan? || step.TakeItem? || step.ItemDone? || step.Finish?) && step.w == w then Some(step)
      else LastMove(steps[..|steps| - 1], w)
  }

  predicate WorksAs(move: Option<Step>, p: Phase) {
    match move
    case Some(Scan(_)) => p == Idle || p.Dequeued?
    case Some(TakeItem(_)) => p.Processing?
    case Some(ItemDone(_)) => p.Processed?
    case _ => p == Idle
  }

  /** A worker goes from an item dequeued to the same queue's item in hand, to one to be finished there,
      and back to the scan. */
  lemma {:induction false} WorkersFollowSteps(states: seq<State>, steps: seq<Step>, k: nat, w: Worker)
    requires Run(states, steps) && k <= |steps|
    ensures WorksAs(LastMove(steps[..k], w), states[k].PhaseOf(w))
    ensures k < |steps| && states[k].PhaseOf(w) != Idle && states[k + 1].PhaseOf(w) != Idle ==>
              states[k + 1].PhaseOf(w).q == states[k].PhaseOf(w).q
  {
    hide Next, Enabled, WorksAs;
    if k < |steps| {
      WorkerMoves(states[k], steps[k], w);
    }
    if k == 0 {
      NobodyWorks(states, steps, w);
    } else {
      WorkersFollowSteps(states, steps, k - 1, w);
      assert steps[..k][..k - 1] == steps[..k - 1];
      WorkerMoves(states[k - 1], steps[k - 1], w);
    }
  }

  lemma NobodyWorks(states: seq<State>, steps: seq<Step>, w: Worker)
    requires Run(states, steps)
    ensures WorksAs(None, states[0].PhaseOf(w))
  {
  }

  lemma WorkerMoves(s: State, step: Step, w: Worker)
    requires Enabled(s, step)
    ensures var mine, p := (step.Scan? || step.TakeItem? || step.ItemDone? || step.Finish?) && step.w == w, Next(s, step).PhaseOf(w);
            && (mine ==> WorksAs(Some(step), p))
            && (!mine ==> p == s.PhaseOf(w))
            && (s.PhaseOf(w) != Idle && p != Idle ==> p.q == s.PhaseOf(w).q)
  {
    hide Look, WakeAll, MayReturn;
  }

  /** The last call a caller made. */
  function LastCall(steps: seq<Step>, c: Caller): Option<Step> {
    if steps == [] then None
    else
      var step := steps[|steps| - 1];
      if (step.Pause? || step.PauseNew? || step.Unpause? || step.Drain?) && step.c == c then Some(step)
      else LastCall(steps[..|steps| - 1], c)
  }

  /** Where a caller can stand behind its last call: pause holds the pool until the caller's unpause, drain
      until it returns. */
  predicate StandsAs(call: Option<Step>, p: CallPhase) {
    match call
    case Some(Pause(_)) => p.Pausing? || p == Paused
    case Some(PauseNew(_)) => p == PausedNew
    case Some(Drain(_, wq)) => p == Out || (p.Draining? && p.wq == wq)
    case _ => p == Out
  }

  lemma {:induction false} CallersFollowSteps(states: seq<State>, steps: seq<Step>, k: nat, c: Caller)
    requires Run(states, steps) && k <= |steps|
    ensures StandsAs(LastCall(steps[..k], c), states[k].CallOf(c))
  {
    hide Next, Enabled, StandsAs;
    if k == 0 {
      NobodyCalled(states, steps, c);
    } else {
      CallersFollowSteps(states, steps, k - 1, c);
      assert steps[..k][..k - 1] == steps[..k - 1];
      CallerMoves(states[k - 1], steps[k - 1], LastCall(steps[..k - 1], c), c);
    }
  }

  lemma NobodyCalled(states: seq<State>, steps: seq<Step>, c: Caller)
    requires Run(states, steps)
    ensures StandsAs(None, states[0].CallOf(c))
  {
  }

  lemma CallerMoves(s: State, step: Step, call: Option<Step>, c: Caller)
    requires Enabled(s, step) && StandsAs(call, s.CallOf(c))
    ensures (step.Pause? || step.PauseNew? || step.Unpause? || step.Drain?) && step.c == c ==>
              StandsAs(Some(step), Next(s, step).CallOf(c))
    ensures !((step.Pause? || step.PauseNew? || step.Unpause? || step.Drain?) && step.c == c) ==>
              StandsAs(call, Next(s, step).CallOf(c))
  {
    hide Look;
  }

  /** No worker has an item in hand, and queue wq, if one is named, is empty. */
  ghost predicate Quiet(s: State, wq: Option<nat>) {
    && (forall w :: s.PhaseOf(w) == Idle)
    && (wq.Some? && wq.value < |s.queues| ==> s.queues[wq.value].queued == [])
  }

  lemma QuietIs(s: State)
    requires Inv(s)
    ensures s.processing == 0 <==> forall w :: s.PhaseOf(w) == Idle
  {
    if s.processing == 0 {
      assert Active(s.workers) == {};
      forall w ensures s.PhaseOf(w) == Idle {
        assert w !in Active(s.workers);
      }
    } else {
      var w :| w in Active(s.workers);
      assert s.PhaseOf(w) != Idle;
    }
  }

  /** pause() and drain() return, at once or behind a wait, exactly when the pool is quiet. */
  lemma ReturnsExactly(s: State, step: Step)
    requires Inv(s) && Enabled(s, step)
    ensures step.Pause? ==> (Next(s, step).CallOf(step.c) == Paused <==> Quiet(s, None))
    ensures step.Drain? ==> (Next(s, step).CallOf(step.c) == Out <==> Quiet(s, step.wq))
    ensures step.Wake? && s.CallOf(step.c).Pausing? ==> (Next(s, step).CallOf(step.c) == Paused <==> Quiet(s, None))
    ensures step.Wake? && s.CallOf(step.c).Draining? ==>
              (Next(s, step).CallOf(step.c) == Out <==> Quiet(s, s.CallOf(step.c).wq))
  {
    QuietIs(s);
    hide Inv, Look, WakeAll;
  }

  /** While anybody holds the pool nothing leaves a queue; when nobody does, scans go on. */
  lemma HeldStandsStill(s: State, w: Worker)
    requires Inv(s) && Enabled(s, Scan(w))
    ensures s.pause == 0 <==> forall c :: !Holds(s.CallOf(c))
    ensures (exists c :: Holds(s.CallOf(c))) ==> Next(s, Scan(w)).queues == s.queues && Next(s, Scan(w)).PhaseOf(w) == Idle
  {
    hide WorkersMatch, Conserves, PausedIsQuiet, NoLostWakeup, Look;
    if s.pause == 0 {
      assert Holding(s.callers) == {};
      forall c ensures !Holds(s.CallOf(c)) {
        assert c !in Holding(s.callers);
      }
    } else {
      var c :| c in Holding(s.callers);
      assert Holds(s.CallOf(c));
    }
  }

  /** A caller that waits is woken exactly when an item is finished, until it looks again. */
  lemma WokenExactly(s: State, step: Step, c: Caller)
    requires Inv(s) && Enabled(s, step)
    requires Next(s, step).CallOf(c).Pausing? || Next(s, step).CallOf(c).Draining?
    ensures Next(s, step).CallOf(c).woken <==>
              || step.Finish?
              || ((s.CallOf(c).Pausing? || s.CallOf(c).Draining?) && s.CallOf(c).woken && step != Wake(c))
  {
    hide WorkersMatch, Conserves, PausedIsQuiet, NoLostWakeup, Look;
    assert s.CallOf(c).Pausing? ==> c in Holding(s.callers);
    assert s.CallOf(c).Draining? ==> c in DrainingSet(s.callers);
  }

  // ------------------------------------------------------------------
  // Fairness

  /** The queue a step dequeues from. */
  function Serves(s: State, step: Step): Option<nat> {
    if step.Scan? && s.pause == 0 && s.queues != [] then Look(s.queues, s.last, |s.queues|).0 else None
  }

  /** A worker that scans an unpaused pool with an item somewhere dequeues one; if it is not from q,
      q has come closer. No other step moves the scan. */
  lemma ScanProgress(s: State, step: Step, q: nat)
    requires Inv(s) && Enabled(s, step) && q < |s.queues| && s.queues[q].queued != []
    ensures |Next(s, step).queues| == |s.queues|
    ensures step.Scan? && s.pause == 0 ==> Serves(s, step).Some?
    ensures Serves(s, step) == None ==> Next(s, step).last == s.last
    ensures Serves(s, step).Some? ==>
              var r := Serves(s, step).value;
              r < |s.queues| && Next(s, step).PhaseOf(step.w) == Dequeued(r) && |Leaves(step, Next(s, step), r)| == 1
    ensures Serves(s, step).Some? && Serves(s, step) != Some(q) ==>
              0 <= Ahead(|s.queues|, Next(s, step).last, q) < Ahead(|s.queues|, s.last, q)
  {
    hide Look, WorkersMatch, Conserves, CallersMatch, NoLostWakeup, PausedIsQuiet;
    if step.Scan? && s.pause == 0 {
      LookFinds(s.queues, s.last, |s.queues|, q);
    }
  }

  /** How many items workers dequeue from step i up to step j. */
  ghost function Dequeues(states: seq<State>, steps: seq<Step>, i: nat, j: nat): nat
    requires i <= j <= |steps| < |states|
    decreases j - i
  {
    if i == j then 0 else (if Serves(states[i], steps[i]).Some? then 1 else 0) + Dequeues(states, steps, i + 1, j)
  }

  /** While queue q has items and is not served, the others are served at most n - 1 times. */
  lemma {:induction false} RoundRobin(states: seq<State>, steps: seq<Step>, i: nat, j: nat, q: nat)
    requires Run(states, steps) && i <= j <= |steps| && q < |states[i].queues|
    requires forall k | i <= k < j :: q < |states[k].queues| && states[k].queues[q].queued != []
                                      && Serves(states[k], steps[k]) != Some(q)
    ensures i < j ==> Dequeues(states, steps, i, j) <= Ahead(|states[i].queues|, states[i].last, q) < |states[i].queues|
    decreases j - i
  {
    hide Inv, Next, Enabled, Serves;
    if i < j {
      RunKeeps(states, steps, i);
      ScanProgress(states[i], steps[i], q);
      LastInRange(states[i]);
      RoundRobin(states, steps, i + 1, j, q);
    }
  }

  lemma LastInRange(s: State)
    requires Inv(s) && s.queues != []
    ensures s.last < |s.queues|
  {
  }

  // ------------------------------------------------------------------
  // The class

  class ThreadPool {
    var queues: seq<Queue>
    var last: nat
    var pause: nat
    var draining: nat
    var processing: nat
    var workers: map<Worker, Phase>
    var callers: map<Caller, CallPhase>

    ghost function Now(): State
      reads this
    {
      State(queues, last, pause, draining, processing, workers, callers)
    }

    constructor (n: nat)
      ensures Now() == Fresh(n) && Inv(Now())
    {
      queues := seq(n, i => EMPTY);
      last, pause, draining, processing, workers, callers := 0, 0, 0, 0, map[], map[];
    }

    /** queue(item), queue_front(item). */
    method Add(q: nat, u: Item, front: bool)
      requires Inv(Now()) && q < |queues|
      modifies this`queues
      ensures Now() == Next(old(Now()), if front then EnqueueFront(q, u) else Enqueue(q, u)) && Inv(Now())
      ensures |queues| == |old(queues)|
      ensures queues[q].queued == if front then [u] + old(queues)[q].queued else old(queues)[q].queued + [u]
      ensures forall r | 0 <= r < |queues| && r != q :: queues[r] == old(queues)[r]
    {
      hide Inv;
      Keeps(Now(), if front then EnqueueFront(q, u) else Enqueue(q, u));
      var x := queues[q];
      queues := queues[q := x.(queued := if front then [u] + x.queued else x.queued + [u], all := x.all + multiset{u})];
    }

    /** One pass of worker() up to where it drops the lock: `took` when it has an item to process. */
    method WorkerPass(w: Worker) returns (took: bool)
      requires Inv(Now()) && Enabled(Now(), Scan(w))
      modifies this
      ensures Now() == Next(old(Now()), Scan(w)) && Inv(Now())
      ensures took <==> exists q | 0 <= q < |old(queues)| :: old(pause) == 0 && old(queues)[q].queued != []
    {
      hide Inv, GoOn, WakeAll, Enabled, Ahead;
      Keeps(Now(), Scan(w));
      if pause == 0 && queues != [] {
        LastInRange(Now());
        FullRound(queues, last);
        var tries := |queues|;
        while tries > 0
          invariant 0 <= tries <= |queues| && last < |queues| && Now() == old(Now()).(last := last)
          invariant Look(queues, last, tries) == Look(queues, old(last), |queues|)
        {
          tries := tries - 1;
          last := (last + 1) % |queues|;
          if queues[last].queued != [] {
            var x := queues[last];
            queues := queues[last := x.(queued := x.queued[1..], toProcess := x.toProcess + [x.queued[0]])];
            processing := processing + 1;
            workers := workers[w := Dequeued(last)];
            return true;
          }
        }
      }
      return false;
    }

    /** The first half of _void_process. */
    method Take(w: Worker)
      requires Inv(Now()) && Enabled(Now(), TakeItem(w))
      modifies this
      ensures Now() == Next(old(Now()), TakeItem(w)) && Inv(Now())
    {
      hide Inv;
      Keeps(Now(), TakeItem(w));
      var q := workers[w].q;
      var x := queues[q];
      var u := x.toProcess[0];
      queues := queues[q := x.(toProcess := x.toProcess[1..], inProcess := x.inProcess + multiset{u})];
      workers := workers[w := Processing(q, u)];
    }

    /** The second half of _void_process. */
    method HandBack(w: Worker)
      requires Inv(Now()) && Enabled(Now(), ItemDone(w))
      modifies this
      ensures Now() == Next(old(Now()), ItemDone(w)) && Inv(Now())
    {
      hide Inv;
      Keeps(Now(), ItemDone(w));
      var q, u := workers[w].q, workers[w].u;
      var x := queues[q];
      queues := queues[q := x.(toFinish := x.toFinish + [u], inProcess := x.inProcess - multiset{u})];
      workers := workers[w := Processed(q)];
    }

    /** Back in worker(): _void_process_finish and what follows it. */
    method FinishItem(w: Worker)
      requires Inv(Now()) && Enabled(Now(), Finish(w))
      modifies this
      ensures Now() == Next(old(Now()), Finish(w)) && Inv(Now())
    {
      hide Inv;
      Keeps(Now(), Finish(w));
      var q := workers[w].q;
      var x := queues[q];
      queues := queues[q := x.(toFinish := x.toFinish[1..], finished := x.finished + [x.toFinish[0]])];
      processing := processing - 1;
      if pause > 0 || draining > 0 {
        callers := WakeAll(callers);
      }
      workers := workers[w := Idle];
    }

    /** One pass of the waiting loop of pause() or drain(). */
    method WaitPass(c: Caller, call: CallPhase) returns (done: bool)
      requires call.Pausing? || call.Draining?
      modifies this
      ensures Now() == GoOn(old(Now()), c, call) && (done <==> old(MayReturn(Now(), call)))
    {
      var busy := processing > 0;
      if call.Draining? && call.wq.Some? && call.wq.value < |queues| && queues[call.wq.value].queued != [] {
        busy := true;
      }
      if busy {
        callers := callers[c := call.(woken := false)];
        return false;
      }
      if call.Pausing? {
        callers := callers[c := Paused];
      } else {
        callers := callers[c := Out];
        draining := if draining > 0 then draining - 1 else 0;
      }
      return true;
    }

    method BeginPause(c: Caller) returns (done: bool)
      requires Inv(Now()) && Enabled(Now(), Pause(c))
      modifies this
      ensures Now() == Next(old(Now()), Pause(c)) && Inv(Now())
    {
      hide Inv;
      Keeps(Now(), Pause(c));
      pause := pause + 1;
      done := WaitPass(c, Pausing(false));
    }

    method BeginPauseNew(c: Caller)
      requires Inv(Now()) && Enabled(Now(), PauseNew(c))
      modifies this
      ensures Now() == Next(old(Now()), PauseNew(c)) && Inv(Now())
    {
      hide Inv;
      Keeps(Now(), PauseNew(c));
      pause := pause + 1;
      callers := callers[c := PausedNew];
    }

    method EndPause(c: Caller)
      requires Inv(Now()) && Enabled(Now(), Unpause(c))
      modifies this
      ensures Now() == Next(old(Now()), Unpause(c)) && Inv(Now())
    {
      hide Inv;
      Keeps(Now(), Unpause(c));
      pause := pause - 1;
      callers := callers[c := Out];
    }

    method BeginDrain(c: Caller, wq: Option<nat>) returns (done: bool)
      requires Inv(Now()) && Enabled(Now(), Drain(c, wq))
      modifies this
      ensures Now() == Next(old(Now()), Drain(c, wq)) && Inv(Now())
    {
      hide Inv;
      Keeps(Now(), Drain(c, wq));
      draining := draining + 1;
      done := WaitPass(c, Draining(wq, false));
    }
  }
}
